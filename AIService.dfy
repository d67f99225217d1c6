/**
 * AIService: turns a code context and the current line into a prompt, asks
 * the configured provider for a completion, caches non-blank answers (and
 * empties the cache when it grows past 100 entries), and reads completions
 * out of the providers' JSON replies with two small hand-written scanners.
 *
 * The HTTP round trip is an abstract function from (provider, prompt) to a
 * reply or an exception; environment variables are parameters.
 */
module AIService {
  import opened JavaText

  /** AIProvider. */
  datatype AIProvider = OpenAI | Claude

  // ===========================================================================
  // Prompt
  // ===========================================================================

  const PromptPreamble: string := "Complete the following code. Provide only the completion, no explanations:\n\n"
  const ContextHeading: string := "Context:\n"
  const LineHeading: string := "\n\nCurrent line to complete:\n"
  const CompletionCue: string := "\n\nCompletion:"

  /** buildPrompt. */
  function BuildPrompt(codeContext: string, currentLine: string): string
  {
    PromptPreamble + ContextHeading + codeContext + LineHeading + currentLine + CompletionCue
  }

  /**
   * The prompt is the fixed preamble and headings around the two inputs, and
   * both inputs can be read back from it at fixed positions.
   */
  lemma PromptRecovers(codeContext: string, currentLine: string)
    ensures var p := BuildPrompt(codeContext, currentLine);
      var h := |PromptPreamble + ContextHeading|;
      var m := h + |codeContext| + |LineHeading|;
      && |p| == m + |currentLine| + |CompletionCue|
      && StartsWith(p, PromptPreamble + ContextHeading)
      && EndsWith(p, CompletionCue)
      && p[h..h + |codeContext|] == codeContext
      && p[h + |codeContext|..m] == LineHeading
      && p[m..m + |currentLine|] == currentLine
  {
    var p := BuildPrompt(codeContext, currentLine);
    var head := PromptPreamble + ContextHeading;
    assert p == head + codeContext + LineHeading + currentLine + CompletionCue;
  }

  // ===========================================================================
  // JSON string escaping
  // ===========================================================================

  /** escapeJson: five literal replacements, backslash first. */
  function EscapeJson(text: string): string
  {
    Replace(Replace(Replace(Replace(Replace(text, "\\", "\\\\"), "\"", "\\\""), "\n", "\\n"), "\r", "\\r"), "\t", "\\t")
  }

  /** unescapeJson: five literal replacements, the escaped backslash last. */
  function UnescapeJson(text: string): string
  {
    Replace(Replace(Replace(Replace(Replace(text, "\\n", "\n"), "\\r", "\r"), "\\t", "\t"), "\\\"", "\""), "\\\\", "\\")
  }

  /** What escapeJson turns one character into. */
  function EscapeChar(c: char): string
  {
    if c == '\\' then "\\\\"
    else if c == '"' then "\\\""
    else if c == '\n' then "\\n"
    else if c == '\r' then "\\r"
    else if c == '\t' then "\\t"
    else [c]
  }

  /** Every replacement target of escapeJson is one character, so escaping distributes over +. */
  lemma EscapeJsonAppend(a: string, b: string)
    ensures EscapeJson(a + b) == EscapeJson(a) + EscapeJson(b)
  {
    var a1, b1 := Replace(a, "\\", "\\\\"), Replace(b, "\\", "\\\\");
    ReplaceCharAppend(a, b, '\\', "\\\\");
    var a2, b2 := Replace(a1, "\"", "\\\""), Replace(b1, "\"", "\\\"");
    ReplaceCharAppend(a1, b1, '"', "\\\"");
    var a3, b3 := Replace(a2, "\n", "\\n"), Replace(b2, "\n", "\\n");
    ReplaceCharAppend(a2, b2, '\n', "\\n");
    var a4, b4 := Replace(a3, "\r", "\\r"), Replace(b3, "\r", "\\r");
    ReplaceCharAppend(a3, b3, '\r', "\\r");
    ReplaceCharAppend(a4, b4, '\t', "\\t");
  }

  /** A replacement whose target character is absent changes nothing. */
  lemma StageSkips(s: string, c: char, r: string)
    requires c !in s
    ensures Replace(s, [c], r) == s
  {
    ReplaceAbsent(s, [c], r, c);
  }

  lemma EscapeJsonSingle(c: char)
    ensures EscapeJson([c]) == EscapeChar(c)
  {
    ReplaceCharSingle(c, '\\', "\\\\");
    var s1 := Replace([c], "\\", "\\\\");
    if c == '\\' {
      StageSkips(s1, '"', "\\\"");
      StageSkips(s1, '\n', "\\n");
      StageSkips(s1, '\r', "\\r");
      StageSkips(s1, '\t', "\\t");
    } else {
      ReplaceCharSingle(c, '"', "\\\"");
      var s2 := Replace(s1, "\"", "\\\"");
      if c == '"' {
        StageSkips(s2, '\n', "\\n");
        StageSkips(s2, '\r', "\\r");
        StageSkips(s2, '\t', "\\t");
      } else {
        ReplaceCharSingle(c, '\n', "\\n");
        var s3 := Replace(s2, "\n", "\\n");
        if c == '\n' {
          StageSkips(s3, '\r', "\\r");
          StageSkips(s3, '\t', "\\t");
        } else {
          ReplaceCharSingle(c, '\r', "\\r");
          var s4 := Replace(s3, "\r", "\\r");
          if c == '\r' {
            StageSkips(s4, '\t', "\\t");
          } else {
            ReplaceCharSingle(c, '\t', "\\t");
          }
        }
      }
    }
  }

  /** The strings t concatenated in order. */
  function Concat(t: seq<string>): string
    decreases |t|
  {
    if t == [] then "" else t[0] + Concat(t[1..])
  }

  lemma {:induction false} ConcatAppend(a: seq<string>, b: seq<string>)
    ensures Concat(a + b) == Concat(a) + Concat(b)
    decreases |a|
  {
    if a == [] {
      assert a + b == b;
    } else {
      assert (a + b)[1..] == a[1..] + b;
      ConcatAppend(a[1..], b);
    }
  }

  /** Each character escaped on its own. */
  function EscapeTokens(s: string): (t: seq<string>)
    ensures |t| == |s| && forall i :: 0 <= i < |s| ==> t[i] == EscapeChar(s[i])
  {
    seq(|s|, i requires 0 <= i < |s| => EscapeChar(s[i]))
  }

  /** escapeJson replaces each character by its escape. */
  lemma {:induction false} EscapeJsonTokens(s: string)
    ensures EscapeJson(s) == Concat(EscapeTokens(s))
    decreases |s|
  {
    if s == [] {
      assert Replace([], "\\", "\\\\") == [];
    } else {
      assert s == [s[0]] + s[1..];
      EscapeJsonAppend([s[0]], s[1..]);
      EscapeJsonSingle(s[0]);
      EscapeJsonTokens(s[1..]);
      assert EscapeTokens(s)[1..] == EscapeTokens(s[1..]);
    }
  }

  /** What escapeJson can produce for one character. */
  predicate EscapePiece(tok: string)
  {
    || (|tok| == 1 && tok[0] != '\\' && tok[0] != '"' && tok[0] != '\n' && tok[0] != '\r' && tok[0] != '\t')
    || (|tok| == 2 && tok[0] == '\\'
        && (tok[1] == '\\' || tok[1] == '"' || tok[1] == 'n' || tok[1] == 'r' || tok[1] == 't'))
  }

  lemma EscapeTokensArePieces(s: string)
    ensures forall i :: 0 <= i < |s| ==> EscapePiece(EscapeTokens(s)[i])
  {
  }

  /** The output of escapeJson holds no raw newline, carriage return or tab. */
  lemma EscapedHasNoControl(s: string)
    ensures var e := EscapeJson(s); '\n' !in e && '\r' !in e && '\t' !in e
  {
    EscapeJsonTokens(s);
    EscapeTokensArePieces(s);
    NoControlInPieces(EscapeTokens(s));
  }

  lemma {:induction false} NoControlInPieces(t: seq<string>)
    requires forall i :: 0 <= i < |t| ==> EscapePiece(t[i])
    ensures '\n' !in Concat(t) && '\r' !in Concat(t) && '\t' !in Concat(t)
    decreases |t|
  {
    if t != [] {
      NoControlInPieces(t[1..]);
    }
  }

  /** Every '"' of e comes right after a backslash. */
  predicate QuotesEscaped(e: string)
  {
    forall k :: 0 <= k < |e| && e[k] == '"' ==> 0 < k && e[k - 1] == '\\'
  }

  /** In the output of escapeJson every '"' comes right after a backslash. */
  lemma EscapedQuotesArePreceded(s: string)
    ensures QuotesEscaped(EscapeJson(s))
  {
    EscapeJsonTokens(s);
    EscapeTokensArePieces(s);
    QuotesPrecededInPieces(EscapeTokens(s));
  }

  lemma {:induction false} QuotesPrecededInPieces(t: seq<string>)
    requires forall i :: 0 <= i < |t| ==> EscapePiece(t[i])
    ensures QuotesEscaped(Concat(t))
    decreases |t|
  {
    if t != [] {
      QuotesPrecededInPieces(t[1..]);
      var head := t[0];
      var e := Concat(t);
      var rest := Concat(t[1..]);
      assert e == head + rest;
      assert EscapePiece(head);
      assert QuotesEscaped(rest);
      forall k | 0 <= k < |e| && e[k] == '"'
        ensures 0 < k && e[k - 1] == '\\'
      {
        if k < |head| {
          assert e[k] == head[k];
          assert head[k] == '"';
          assert k == 1 && head[0] == '\\';
          assert e[0] == head[0];
        } else {
          assert e[k] == rest[k - |head|];
          assert rest[k - |head|] == '"';
          assert k - |head| != 0;
          assert rest[k - |head| - 1] == '\\';
          assert e[k - 1] == rest[k - 1 - |head|];
        }
      }
    }
  }

  // --- unescaping, token by token --------------------------------------------

  /** A piece of escaped text: one character other than a backslash, or a backslash and a character other than a backslash. */
  predicate ValidToken(tok: string)
  {
    (|tok| == 1 && tok[0] != '\\') || (|tok| == 2 && tok[0] == '\\' && tok[1] != '\\')
  }

  function MapTokens(t: seq<string>, target: string, r: string): (u: seq<string>)
    ensures |u| == |t| && forall i :: 0 <= i < |t| ==> u[i] == (if t[i] == target then r else t[i])
  {
    seq(|t|, i requires 0 <= i < |t| => if t[i] == target then r else t[i])
  }

  /** A two-character escape target matches a whole token or nothing of it. */
  lemma ReplaceToken(tok: string, rest: string, target: string, r: string)
    requires ValidToken(tok) && |target| == 2 && target[0] == '\\'
    ensures Replace(tok + rest, target, r) == (if tok == target then r else tok) + Replace(rest, target, r)
  {
    var s := tok + rest;
    if |tok| == 1 {
      ReplaceKeepsHead(s, target, r);
      assert s[1..] == rest;
    } else {
      assert s[..2] == tok;
      if tok == target {
        assert s[2..] == rest;
      } else {
        var s1 := s[1..];
        assert s1 == [tok[1]] + rest;
        ReplaceKeepsHead(s1, target, r);
        assert s1[1..] == rest;
        assert tok == [tok[0]] + [tok[1]];
      }
    }
  }

  lemma {:induction false} ReplaceTokens(t: seq<string>, target: string, r: string)
    requires forall i :: 0 <= i < |t| ==> ValidToken(t[i])
    requires |target| == 2 && target[0] == '\\'
    ensures Replace(Concat(t), target, r) == Concat(MapTokens(t, target, r))
    decreases |t|
  {
    if t == [] {
      assert MapTokens(t, target, r) == [];
    } else {
      ReplaceToken(t[0], Concat(t[1..]), target, r);
      ReplaceTokens(t[1..], target, r);
      assert MapTokens(t, target, r)[1..] == MapTokens(t[1..], target, r);
    }
  }

  lemma {:induction false} ConcatSingletons(s: string, t: seq<string>)
    requires |t| == |s| && forall i :: 0 <= i < |s| ==> t[i] == [s[i]]
    ensures Concat(t) == s
    decreases |s|
  {
    if s != [] {
      ConcatSingletons(s[1..], t[1..]);
      assert s == [s[0]] + s[1..];
    }
  }

  /** One stage of unescapeJson on valid tokens; a valid replacement keeps the tokens valid. */
  lemma UnescapeStage(t: seq<string>, target: string, r: string)
    requires forall i :: 0 <= i < |t| ==> ValidToken(t[i])
    requires |target| == 2 && target[0] == '\\' && ValidToken(r)
    ensures Replace(Concat(t), target, r) == Concat(MapTokens(t, target, r))
    ensures forall i :: 0 <= i < |t| ==> ValidToken(MapTokens(t, target, r)[i])
  {
    ReplaceTokens(t, target, r);
  }

  /** The five stages of unescapeJson applied to one escaped character give it back. */
  function UnescapeToken(tok: string): string
  {
    var t1 := if tok == "\\n" then "\n" else tok;
    var t2 := if t1 == "\\r" then "\r" else t1;
    var t3 := if t2 == "\\t" then "\t" else t2;
    var t4 := if t3 == "\\\"" then "\"" else t3;
    if t4 == "\\\\" then "\\" else t4
  }

  /** Each token unescaped on its own. */
  function UnescapeTokens(t: seq<string>): (u: seq<string>)
    ensures |u| == |t| && forall i :: 0 <= i < |t| ==> u[i] == UnescapeToken(t[i])
  {
    seq(|t|, i requires 0 <= i < |t| => UnescapeToken(t[i]))
  }

  /** On valid tokens, unescapeJson works token by token. */
  lemma UnescapeByTokens(t0: seq<string>)
    requires forall i :: 0 <= i < |t0| ==> ValidToken(t0[i])
    ensures UnescapeJson(Concat(t0)) == Concat(UnescapeTokens(t0))
  {
    UnescapeStage(t0, "\\n", "\n");
    var t1 := MapTokens(t0, "\\n", "\n");
    UnescapeStage(t1, "\\r", "\r");
    var t2 := MapTokens(t1, "\\r", "\r");
    UnescapeStage(t2, "\\t", "\t");
    var t3 := MapTokens(t2, "\\t", "\t");
    UnescapeStage(t3, "\\\"", "\"");
    var t4 := MapTokens(t3, "\\\"", "\"");
    ReplaceTokens(t4, "\\\\", "\\");
    var t5 := MapTokens(t4, "\\\\", "\\");
    assert t5 == UnescapeTokens(t0) by {
      forall i | 0 <= i < |t0| ensures t5[i] == UnescapeTokens(t0)[i] {
        TokenThroughStages(t0[i], t1[i], t2[i], t3[i], t4[i], t5[i]);
      }
    }
  }

  /** A token carried through the five stages, one replacement each, is UnescapeToken of it. */
  lemma TokenThroughStages(x0: string, x1: string, x2: string, x3: string, x4: string, x5: string)
    requires x1 == (if x0 == "\\n" then "\n" else x0)
    requires x2 == (if x1 == "\\r" then "\r" else x1)
    requires x3 == (if x2 == "\\t" then "\t" else x2)
    requires x4 == (if x3 == "\\\"" then "\"" else x3)
    requires x5 == (if x4 == "\\\\" then "\\" else x4)
    ensures x5 == UnescapeToken(x0)
  {
  }

  /** unescapeJson undoes escapeJson on every text without a backslash. */
  lemma UnescapeEscapeRoundTrip(s: string)
    requires '\\' !in s
    ensures UnescapeJson(EscapeJson(s)) == s
  {
    EscapeJsonTokens(s);
    var t0 := EscapeTokens(s);
    assert forall i :: 0 <= i < |t0| ==> ValidToken(t0[i]) by {
      forall i | 0 <= i < |t0| ensures ValidToken(t0[i]) {
        assert s[i] != '\\';
      }
    }
    UnescapeByTokens(t0);
    var u := UnescapeTokens(t0);
    forall i | 0 <= i < |s| ensures u[i] == [s[i]] {
      UnescapeEscapedChar(s[i]);
    }
    ConcatSingletons(s, u);
  }

  lemma UnescapeEscapedChar(c: char)
    requires c != '\\'
    ensures UnescapeToken(EscapeChar(c)) == [c]
  {
  }

  /** With a backslash the round trip can fail: a backslash followed by 'n' comes back as a backslash and a newline. */
  lemma BackslashBreaksRoundTrip()
    ensures EscapeJson("\\n") == "\\\\n"
    ensures UnescapeJson(EscapeJson("\\n")) == "\\\n"
    ensures UnescapeJson(EscapeJson("\\n")) != "\\n"
  {
    EscapeBackslashN();
    UnescapeBackslashBackslashN();
  }

  lemma EscapeBackslashN()
    ensures EscapeJson("\\n") == "\\\\n"
  {
    EscapeJsonTokens("\\n");
    assert EscapeTokens("\\n") == ["\\\\", "n"];
    assert Concat(["\\\\", "n"]) == "\\\\" + Concat(["n"]);
  }

  lemma UnescapeBackslashBackslashN()
    ensures UnescapeJson("\\\\n") == "\\\n"
  {
    var e := "\\\\n";
    var u1 := Replace(e, "\\n", "\n");
    assert e[..2] != "\\n" by { assert e[..2][1] == '\\'; }
    assert e[1..] == "\\n" by { assert |e[1..]| == 2 && e[1..][0] == '\\' && e[1..][1] == 'n'; }
    assert Replace("\\n", "\\n", "\n") == "\n" + Replace([], "\\n", "\n");
    assert u1 == "\\\n";
    StageSkips2(u1, "\\r", "\r", 'r');
    StageSkips2(u1, "\\t", "\t", 't');
    StageSkips2(u1, "\\\"", "\"", '"');
    assert u1[..2] != "\\\\";
    assert u1[1..] == "\n";
  }

  lemma StageSkips2(s: string, target: string, r: string, c: char)
    requires |target| > 0 && c in target && c !in s
    ensures Replace(s, target, r) == s
  {
    ReplaceAbsent(s, target, r, c);
  }

  // ===========================================================================
  // Response scanners
  // ===========================================================================

  const ContentMarkerSpaced: string := "\"content\": \""
  const ContentMarkerTight: string := "\"content\":\""

  /** Where the content starts: after "content": " if present, else after "content":", else -1. */
  function ContentStart(body: string): (start: int)
    ensures start == -1 || 0 <= start <= |body|
  {
    var spaced := IndexOf(body, ContentMarkerSpaced);
    if spaced != -1 then spaced + 12
    else
      var tight := IndexOf(body, ContentMarkerTight);
      if tight != -1 then tight + 11 else -1
  }

  /** Whether the scan reaches position j with an active backslash escape, having started at start. */
  function EscapedAt(body: string, start: nat, j: nat): bool
    requires start <= j <= |body|
    decreases j - start
  {
    if j == start then false else body[j - 1] == '\\' && !EscapedAt(body, start, j - 1)
  }

  /** Position j holds a '"' that is not escaped: the closing quote. */
  predicate ClosesAt(body: string, start: nat, j: nat)
  {
    start <= j < |body| && body[j] == '"' && !EscapedAt(body, start, j)
  }

  /** The first closing quote at or after j, or the end of the body. */
  function ContentEndFrom(body: string, start: nat, j: nat): (e: nat)
    requires start <= j <= |body|
    ensures j <= e <= |body|
    ensures forall k :: j <= k < e ==> !ClosesAt(body, start, k)
    ensures e < |body| ==> ClosesAt(body, start, e)
    decreases |body| - j
  {
    if j == |body| then j
    else if ClosesAt(body, start, j) then j
    else ContentEndFrom(body, start, j + 1)
  }

  /** The end of the content: the first unescaped '"' after start, or the end of the body. */
  function ContentEnd(body: string, start: nat): (e: nat)
    requires start <= |body|
    ensures start <= e <= |body|
    ensures forall k :: start <= k < e ==> !ClosesAt(body, start, k)
    ensures e < |body| ==> ClosesAt(body, start, e)
  {
    ContentEndFrom(body, start, start)
  }

  /** Those two properties pin the end down. */
  lemma ContentEndUnique(body: string, start: nat, e: nat)
    requires start <= e <= |body|
    requires forall k :: start <= k < e ==> !ClosesAt(body, start, k)
    requires e < |body| ==> ClosesAt(body, start, e)
    ensures e == ContentEnd(body, start)
  {
    var f := ContentEnd(body, start);
  }

  /** What the main path of parseOpenAIResponse returns. */
  function OpenAIContent(body: string): Option<string>
  {
    var start := ContentStart(body);
    if start < 0 then None
    else
      var e := ContentEnd(body, start);
      if e <= start then None else Some(UnescapeJson(body[start..e]))
  }

  /** parseOpenAIResponse, main path. */
  method ParseOpenAIResponse(responseBody: string) returns (r: Option<string>)
    ensures r == OpenAIContent(responseBody)
  {
    var contentStart := IndexOf(responseBody, ContentMarkerSpaced);
    if contentStart != -1 {
      contentStart := contentStart + 12;
    } else {
      contentStart := IndexOf(responseBody, ContentMarkerTight);
      if contentStart != -1 {
        contentStart := contentStart + 11;
      } else {
        return None;
      }
    }
    assert contentStart == ContentStart(responseBody);
    var contentEnd := contentStart;
    var escaped := false;
    while contentEnd < |responseBody|
      invariant contentStart <= contentEnd <= |responseBody|
      invariant escaped == EscapedAt(responseBody, contentStart, contentEnd)
      invariant forall k :: contentStart <= k < contentEnd ==> !ClosesAt(responseBody, contentStart, k)
    {
      var c := responseBody[contentEnd];
      if !escaped && c == '"' {
        break;
      }
      escaped := c == '\\' && !escaped;
      contentEnd := contentEnd + 1;
    }
    ContentEndUnique(responseBody, contentStart, contentEnd);
    if contentEnd <= contentStart {
      return None;
    }
    var rawContent := responseBody[contentStart..contentEnd];
    r := Some(UnescapeJson(rawContent));
  }

  /** The spaced marker wins whenever it occurs; the tight one is used only without it; with neither, null. */
  lemma OpenAIMarkerPreference(body: string)
    ensures Contains(body, ContentMarkerSpaced) ==> ContentStart(body) == IndexOf(body, ContentMarkerSpaced) + 12
    ensures !Contains(body, ContentMarkerSpaced) && Contains(body, ContentMarkerTight) ==>
      ContentStart(body) == IndexOf(body, ContentMarkerTight) + 11
    ensures !Contains(body, ContentMarkerSpaced) && !Contains(body, ContentMarkerTight) ==> OpenAIContent(body) == None
  {
  }

  /** Empty content (a closing quote right at the start, or nothing after the marker) gives null. */
  lemma OpenAIEmptyContent(body: string)
    requires ContentStart(body) >= 0
    ensures var start := ContentStart(body);
      OpenAIContent(body) == None <==> start == |body| || body[start] == '"'
  {
    var start := ContentStart(body);
    if start < |body| && body[start] == '"' {
      assert ClosesAt(body, start, start);
    }
  }

  /** Scanning escaped text: at each piece boundary no escape is pending and no closing quote has been passed. */
  predicate ScanToken(tok: string)
  {
    (|tok| == 1 && tok[0] != '\\' && tok[0] != '"') || (|tok| == 2 && tok[0] == '\\' && tok[1] != '\\')
  }

  lemma {:induction false} ScanOverTokens(body: string, start: nat, t: seq<string>, i: nat)
    requires i <= |t| && forall k :: 0 <= k < |t| ==> ScanToken(t[k])
    requires start + |Concat(t)| <= |body| && body[start..start + |Concat(t)|] == Concat(t)
    ensures var q := start + |Concat(t[..i])|;
      q <= |body| && !EscapedAt(body, start, q) && forall k :: start <= k < q ==> !ClosesAt(body, start, k)
    decreases i
  {
    if i == 0 {
      assert t[..0] == [];
    } else {
      ScanOverTokens(body, start, t, i - 1);
      var p := start + |Concat(t[..i - 1])|;
      var tok := t[i - 1];
      ConcatPrefixSnoc(t, i - 1);
      PieceInBody(body, start, t, i - 1);
      assert start + |Concat(t[..i])| == p + |tok|;
      assert body[p] == tok[0] by { assert body[p..p + |tok|][0] == body[p]; }
      if |tok| == 2 {
        assert body[p + 1] == tok[1] by { assert body[p..p + |tok|][1] == body[p + 1]; }
        assert EscapedAt(body, start, p + 1);
      }
    }
  }

  /** The first i + 1 pieces are the first i and then piece i. */
  lemma ConcatPrefixSnoc(t: seq<string>, i: nat)
    requires i < |t|
    ensures Concat(t[..i + 1]) == Concat(t[..i]) + t[i]
  {
    assert t[..i + 1] == t[..i] + [t[i]];
    ConcatAppend(t[..i], [t[i]]);
    assert Concat([t[i]]) == t[i] + Concat([]);
  }

  /** Piece i of t sits in the body right after the first i pieces. */
  lemma PieceInBody(body: string, start: nat, t: seq<string>, i: nat)
    requires i < |t|
    requires start + |Concat(t)| <= |body| && body[start..start + |Concat(t)|] == Concat(t)
    ensures var p := start + |Concat(t[..i])|;
      p + |t[i]| <= |body| && body[p..p + |t[i]|] == t[i]
  {
    ConcatAround(t, i);
    SliceInside(body, start, Concat(t[..i]), t[i], Concat(t[i + 1..]));
  }

  /** The concatenation of t is the pieces before i, then piece i, then the pieces after it. */
  lemma ConcatAround(t: seq<string>, i: nat)
    requires i < |t|
    ensures Concat(t) == Concat(t[..i]) + (t[i] + Concat(t[i + 1..]))
  {
    assert t[..i] + t[i..] == t;
    ConcatAppend(t[..i], t[i..]);
    assert t[i..][1..] == t[i + 1..];
  }

  /** When a + (x + c) is found at start, x is found right after a. */
  lemma SliceInside(body: string, start: nat, a: string, x: string, c: string)
    requires start + |a + (x + c)| <= |body| && body[start..start + |a + (x + c)|] == a + (x + c)
    ensures start + |a| + |x| <= |body| && body[start + |a|..start + |a| + |x|] == x
  {
    var w := a + (x + c);
    forall k | 0 <= k < |x| ensures body[start + |a| + k] == x[k] {
      assert body[start + |a| + k] == body[start..start + |w|][|a| + k];
      assert w[|a| + k] == x[k];
    }
  }

  /**
   * The escape-aware scanner reads back what escapeJson wrote: a reply whose
   * first spaced content marker is followed by the escaped text and a quote
   * yields the text itself, when it is non-empty and free of backslashes.
   */
  lemma OpenAIReadsEscapedContent(pre: string, s: string, post: string)
    requires s != [] && '\\' !in s
    requires !Contains(pre + ContentMarkerSpaced[..11], ContentMarkerSpaced)
    ensures OpenAIContent(pre + ContentMarkerSpaced + EscapeJson(s) + "\"" + post) == Some(s)
  {
    var e := EscapeJson(s);
    var body := pre + ContentMarkerSpaced + e + "\"" + post;
    var start := |pre| + 12;
    EscapedContentPlacement(pre, e, post);
    EscapedContentEnd(body, start, s);
    EscapeNonEmpty(s);
    OpenAIContentBetween(body, start, start + |e|);
    UnescapeEscapeRoundTrip(s);
  }

  /** With the content located, the main path returns it unescaped. */
  lemma OpenAIContentBetween(body: string, start: nat, end: nat)
    requires ContentStart(body) == start && start < end <= |body| && ContentEnd(body, start) == end
    ensures OpenAIContent(body) == Some(UnescapeJson(body[start..end]))
  {
  }

  lemma EscapeNonEmpty(s: string)
    requires s != []
    ensures |EscapeJson(s)| > 0
  {
    assert s == [s[0]] + s[1..];
    EscapeJsonAppend([s[0]], s[1..]);
    EscapeJsonSingle(s[0]);
  }

  /** After the first marker, the content starts, and the escaped text sits there followed by its quote. */
  lemma EscapedContentPlacement(pre: string, e: string, post: string)
    requires !Contains(pre + ContentMarkerSpaced[..11], ContentMarkerSpaced)
    ensures var body := pre + ContentMarkerSpaced + e + "\"" + post; var start := |pre| + 12;
      && ContentStart(body) == start
      && start + |e| < |body| && body[start..start + |e|] == e && body[start + |e|] == '"'
  {
    var body := pre + ContentMarkerSpaced + e + "\"" + post;
    FirstMarkerAt(pre, e + "\"" + post);
    assert body == pre + ContentMarkerSpaced + (e + "\"" + post);
    SliceInside(body, 0, pre + ContentMarkerSpaced, e, "\"" + post);
    assert body[|pre| + 12 + |e|] == ("\"" + post)[0];
  }

  /** The scanner runs over an escaped backslash-free text and stops at the quote after it. */
  lemma EscapedContentEnd(body: string, start: nat, s: string)
    requires '\\' !in s
    requires var e := EscapeJson(s);
      start + |e| < |body| && body[start..start + |e|] == e && body[start + |e|] == '"'
    ensures ContentEnd(body, start) == start + |EscapeJson(s)|
  {
    var e := EscapeJson(s);
    EscapeJsonTokens(s);
    var t := EscapeTokens(s);
    forall k | 0 <= k < |t| ensures ScanToken(t[k]) {
      assert s[k] != '\\';
    }
    ScanOverTokens(body, start, t, |t|);
    assert t[..|t|] == t;
    ContentEndUnique(body, start, start + |e|);
  }

  /** A marker placed after text that does not contain it is the first occurrence. */
  lemma FirstMarkerAt(pre: string, rest: string)
    requires !Contains(pre + ContentMarkerSpaced[..11], ContentMarkerSpaced)
    ensures IndexOf(pre + ContentMarkerSpaced + rest, ContentMarkerSpaced) == |pre|
  {
    var body := pre + ContentMarkerSpaced + rest;
    var head := pre + ContentMarkerSpaced[..11];
    assert MatchesAt(body, ContentMarkerSpaced, |pre|) by {
      assert body[|pre|..|pre| + 12] == ContentMarkerSpaced;
    }
    ContainsIff(head, ContentMarkerSpaced);
    forall k | 0 <= k < |pre| ensures !MatchesAt(body, ContentMarkerSpaced, k) {
      assert body[..|head|] == head;
      assert body[k..k + 12] == head[k..k + 12];
      assert !MatchesAt(head, ContentMarkerSpaced, k);
    }
    var r := IndexOf(body, ContentMarkerSpaced);
    assert r != -1;
  }

  /** Text without a backslash, quote or control character that escapeJson would rewrite. */
  predicate IsPlainText(m: string)
  {
    '\\' !in m && '"' !in m && '\n' !in m && '\r' !in m && '\t' !in m
  }

  /** escapeJson leaves plain text alone. */
  lemma EscapePlain(m: string)
    requires IsPlainText(m)
    ensures EscapeJson(m) == m
  {
    StageSkips(m, '\\', "\\\\");
    StageSkips(m, '"', "\\\"");
    StageSkips(m, '\n', "\\n");
    StageSkips(m, '\r', "\\r");
    StageSkips(m, '\t', "\\t");
  }

  /** Quoting plain text and escaping it puts a backslash before each quote. */
  lemma EscapeQuoted(m: string)
    requires IsPlainText(m)
    ensures EscapeJson("\"" + m + "\"") == "\\\"" + m + "\\\""
  {
    EscapeJsonAppend("\"" + m, "\"");
    EscapeJsonAppend("\"", m);
    EscapeJsonSingle('"');
    EscapePlain(m);
  }

  lemma BraceBeforeMarker()
    ensures !Contains("{" + ContentMarkerSpaced[..11], ContentMarkerSpaced)
  {
    var head := "{" + ContentMarkerSpaced[..11];
    ContainsIff(head, ContentMarkerSpaced);
    assert !MatchesAt(head, ContentMarkerSpaced, 0) by { assert head[0] == '{'; }
  }

  /**
   * Escaped quotes inside the content do not end it: "content": "\"m\"" reads
   * back as m in quotes, for any plain text m.
   */
  lemma OpenAIQuotedText(m: string)
    requires IsPlainText(m)
    ensures OpenAIContent("{" + ContentMarkerSpaced + "\\\"" + m + "\\\"" + "\"}") == Some("\"" + m + "\"")
  {
    EscapeQuoted(m);
    BraceBeforeMarker();
    OpenAIReadsEscapedContent("{", "\"" + m + "\"", "}");
    assert "{" + ContentMarkerSpaced + ("\\\"" + m + "\\\"") + "\"" + "}"
        == "{" + ContentMarkerSpaced + "\\\"" + m + "\\\"" + "\"}";
  }

  const TextMarker: string := "\"text\":\""

  /** parseClaudeResponse: from after the first "text":" up to the next '"', whatever precedes it. */
  function ParseClaudeResponse(responseBody: string): Option<string>
  {
    var textStart := IndexOf(responseBody, TextMarker) + 8;
    var textEnd := IndexOfFrom(responseBody, "\"", textStart);
    if textStart > 7 && textEnd > textStart then Some(UnescapeJson(responseBody[textStart..textEnd]))
    else None
  }

  /** No marker, no text. */
  lemma ClaudeNeedsMarker(body: string)
    requires !Contains(body, TextMarker)
    ensures ParseClaudeResponse(body) == None
  {
  }

  lemma QuoteFree(s: string, from: nat, to: nat)
    requires from <= to <= |s| && forall k :: from <= k < to ==> !MatchesAt(s, "\"", k)
    ensures '"' !in s[from..to]
  {
    forall k | from <= k < to ensures s[k] != '"' {
      assert !MatchesAt(s, "\"", k);
      assert s[k..k + 1] == [s[k]];
    }
  }

  /**
   * With the marker present, the scanner answers exactly when a non-quote
   * character follows the marker and a '"' comes later; it returns the
   * unescaped text up to the first '"', escaped or not, so the answer never
   * holds a '"'.
   */
  lemma ClaudeStopsAtFirstQuote(body: string)
    requires Contains(body, TextMarker)
    ensures var ts := IndexOf(body, TextMarker) + 8; var r := ParseClaudeResponse(body);
      && ts <= |body|
      && (r.Some? <==> ts < |body| && body[ts] != '"' && '"' in body[ts..])
      && (r.Some? ==> exists te :: ts < te < |body| && body[te] == '"' && '"' !in body[ts..te]
                                   && r.value == UnescapeJson(body[ts..te]))
      && (r.Some? ==> '"' !in r.value)
  {
    var ts := IndexOf(body, TextMarker) + 8;
    var te := IndexOfFrom(body, "\"", ts);
    var r := ParseClaudeResponse(body);
    if te == -1 {
      QuoteFree(body, ts, |body|);
      assert body[ts..] == body[ts..|body|];
    } else {
      QuoteFree(body, ts, te);
      assert body[te..te + 1] == "\"";
      assert body[te] == body[te..te + 1][0];
      assert body[ts..][te - ts] == body[te];
      if ts < |body| && body[ts] == '"' {
        assert MatchesAt(body, "\"", ts) by { assert body[ts..ts + 1] == [body[ts]]; }
      }
      if r.Some? {
        UnescapeKeepsQuoteOut(body[ts..te]);
      }
    }
  }

  /** Unescaping text without a '"' cannot create one. */
  lemma UnescapeKeepsQuoteOut(s: string)
    requires '"' !in s
    ensures '"' !in UnescapeJson(s)
  {
    var u1 := Replace(s, "\\n", "\n");
    ReplaceAvoids(s, "\\n", "\n", '"');
    var u2 := Replace(u1, "\\r", "\r");
    ReplaceAvoids(u1, "\\r", "\r", '"');
    var u3 := Replace(u2, "\\t", "\t");
    ReplaceAvoids(u2, "\\t", "\t", '"');
    ReplaceAbsent(u3, "\\\"", "\"", '"');
    ReplaceAvoids(u3, "\\\\", "\\", '"');
  }

  // ===========================================================================
  // Cache key, provider selection, availability
  // ===========================================================================

  /** generateCacheKey: String.valueOf of the hashCode of the concatenation. */
  function GenerateCacheKey(codeContext: string, currentLine: string): string
  {
    IntToString(HashCode(codeContext + currentLine))
  }

  /** The key is the decimal signed 32-bit reading of the 31-polynomial of the concatenation mod 2^32. */
  lemma CacheKeyIsPolynomialHash(codeContext: string, currentLine: string)
    ensures GenerateCacheKey(codeContext, currentLine)
         == IntToString(ToInt32(HashPolynomial(codeContext + currentLine) % TwoTo32))
  {
    HashIsPolynomialMod(codeContext + currentLine);
  }

  /** Only the concatenation matters: splitting it differently gives the same key. */
  lemma CacheKeySeesOnlyConcatenation(a: string, b: string, c: string, d: string)
    requires a + b == c + d
    ensures GenerateCacheKey(a, b) == GenerateCacheKey(c, d)
  {
  }

  lemma CacheKeyCollisionExample()
    ensures GenerateCacheKey("ab", "c") == GenerateCacheKey("a", "bc")
  {
    CacheKeySeesOnlyConcatenation("ab", "c", "a", "bc");
  }

  /** Different hash codes give different keys: the rendering of the hash loses nothing. */
  lemma CacheKeyDistinguishesHashes(a: string, b: string, c: string, d: string)
    requires HashCode(a + b) != HashCode(c + d)
    ensures GenerateCacheKey(a, b) != GenerateCacheKey(c, d)
  {
    if GenerateCacheKey(a, b) == GenerateCacheKey(c, d) {
      IntToStringInjective(HashCode(a + b), HashCode(c + d));
    }
  }

  /** The three environment variables the service reads; None when unset. */
  datatype Environment = Environment(aiProvider: Option<string>, openAIKey: Option<string>, anthropicKey: Option<string>)

  /** getConfiguredProvider, with the AI_PROVIDER value passed in. */
  function GetConfiguredProvider(setting: Option<string>): AIProvider
  {
    if setting.Some? && EqualsIgnoreCase("CLAUDE", setting.value) then Claude else OpenAI
  }

  /** CLAUDE exactly when the setting folds to "claude"; unset or anything else means OPENAI. */
  lemma ProviderSelection(setting: Option<string>)
    ensures GetConfiguredProvider(setting) == Claude <==> setting.Some? && ToLowerAscii(setting.value) == "claude"
    ensures setting.None? ==> GetConfiguredProvider(setting) == OpenAI
  {
    assert ToLowerAscii("CLAUDE") == "claude";
  }

  /** A key that is set and not blank. */
  predicate UsableKey(key: Option<string>)
  {
    key.Some? && !IsBlank(key.value)
  }

  /** The API key variable a provider reads. */
  function KeyFor(provider: AIProvider, env: Environment): Option<string>
  {
    if provider == OpenAI then env.openAIKey else env.anthropicKey
  }

  /** isAvailable. */
  function IsAvailable(env: Environment): bool
  {
    var provider := GetConfiguredProvider(env.aiProvider);
    if provider == OpenAI then UsableKey(env.openAIKey) else UsableKey(env.anthropicKey)
  }

  /**
   * Availability looks only at the selected provider's key: it holds iff that
   * key is set and has a character above ' ', whatever the other key is.
   */
  lemma AvailabilityUsesSelectedKey(env: Environment, otherKey: Option<string>)
    ensures var key := KeyFor(GetConfiguredProvider(env.aiProvider), env);
      IsAvailable(env) <==> key.Some? && exists k :: 0 <= k < |key.value| && key.value[k] > ' '
    ensures GetConfiguredProvider(env.aiProvider) == OpenAI ==>
      IsAvailable(env) == IsAvailable(env.(anthropicKey := otherKey))
    ensures GetConfiguredProvider(env.aiProvider) == Claude ==>
      IsAvailable(env) == IsAvailable(env.(openAIKey := otherKey))
  {
    if env.openAIKey.Some? { BlankIff(env.openAIKey.value); }
    if env.anthropicKey.Some? { BlankIff(env.anthropicKey.value); }
  }

  // ===========================================================================
  // Provider calls
  // ===========================================================================

  const OpenAIRequestHead: string :=
    "{\n    \"model\": \"gpt-3.5-turbo\",\n    \"messages\": [\n        {\n            \"role\": \"system\",\n"
    + "            \"content\": \"You are a code completion assistant. Provide clean, accurate code completions without explanations.\"\n"
    + "        },\n        {\n            \"role\": \"user\",\n            \"content\": \""
  const OpenAIRequestTail: string :=
    "\"\n        }\n    ],\n    \"max_tokens\": 100,\n    \"temperature\": 0.1,\n    \"stream\": false\n}"
  const ClaudeRequestHead: string :=
    "{\n    \"model\": \"claude-3-sonnet-20240229\",\n    \"max_tokens\": 150,\n    \"messages\": [\n        {\n"
    + "            \"role\": \"user\",\n            \"content\": \""
  const ClaudeRequestTail: string := "\"\n        }\n    ]\n}"

  /** The JSON request body with the escaped prompt as the user message. */
  function RequestBody(provider: AIProvider, prompt: string): string
  {
    if provider == OpenAI then OpenAIRequestHead + EscapeJson(prompt) + OpenAIRequestTail
    else ClaudeRequestHead + EscapeJson(prompt) + ClaudeRequestTail
  }

  function RequestHead(provider: AIProvider): string
  {
    if provider == OpenAI then OpenAIRequestHead else ClaudeRequestHead
  }

  function RequestTail(provider: AIProvider): string
  {
    if provider == OpenAI then OpenAIRequestTail else ClaudeRequestTail
  }

  /**
   * The prompt travels as one JSON string: between the fixed head and tail
   * sits text with no raw line breaks or tabs and no bare '"', and for a
   * prompt without backslashes that text unescapes to the prompt.
   */
  lemma RequestCarriesPrompt(provider: AIProvider, prompt: string)
    ensures var body := RequestBody(provider, prompt);
      var h := |RequestHead(provider)|; var t := |RequestTail(provider)|;
      var payload := body[h..|body| - t];
      && h + t <= |body|
      && StartsWith(body, RequestHead(provider)) && EndsWith(body, RequestTail(provider))
      && payload == EscapeJson(prompt)
      && '\n' !in payload && '\r' !in payload && '\t' !in payload && QuotesEscaped(payload)
      && ('\\' !in prompt ==> UnescapeJson(payload) == prompt)
  {
    var body := RequestBody(provider, prompt);
    var head, tail := RequestHead(provider), RequestTail(provider);
    assert body == head + EscapeJson(prompt) + tail;
    assert body[|head|..|body| - |tail|] == EscapeJson(prompt);
    EscapedHasNoControl(prompt);
    EscapedQuotesArePreceded(prompt);
    if '\\' !in prompt {
      UnescapeEscapeRoundTrip(prompt);
    }
  }

  /** What the HTTP client yields: a status and a body, or an exception. */
  datatype HttpOutcome = HttpResponse(status: int, body: string) | HttpFailed

  /** The provider call: a reply (null or a string) or an exception. */
  datatype ProviderOutcome = Returned(response: Option<string>) | Threw

  /** The parser for a provider's reply. */
  function ParseResponse(provider: AIProvider, body: string): Option<string>
  {
    if provider == OpenAI then OpenAIContent(body) else ParseClaudeResponse(body)
  }

  /**
   * callOpenAI and callClaude: without a usable key, null; otherwise the
   * request is sent with send (provider, key, body), a transport exception
   * propagates, status 200 is parsed and any other status gives null.
   */
  function CallProvider(provider: AIProvider, prompt: string, env: Environment,
                        send: (AIProvider, string, string) -> HttpOutcome): ProviderOutcome
  {
    var key := KeyFor(provider, env);
    if !UsableKey(key) then Returned(None)
    else
      match send(provider, key.value, RequestBody(provider, prompt))
      case HttpFailed => Threw
      case HttpResponse(status, body) => if status == 200 then Returned(ParseResponse(provider, body)) else Returned(None)
  }

  /** Without a usable key nothing is sent, and the answer is null whatever the network would do. */
  lemma CallNeedsKey(provider: AIProvider, prompt: string, env: Environment,
                     send: (AIProvider, string, string) -> HttpOutcome, send': (AIProvider, string, string) -> HttpOutcome)
    requires !UsableKey(KeyFor(provider, env))
    ensures CallProvider(provider, prompt, env, send) == Returned(None)
    ensures CallProvider(provider, prompt, env, send) == CallProvider(provider, prompt, env, send')
  {
  }

  /** When the service is not available, the configured provider's call answers null without a request. */
  lemma UnavailableMeansNull(prompt: string, env: Environment, send: (AIProvider, string, string) -> HttpOutcome)
    requires !IsAvailable(env)
    ensures CallProvider(GetConfiguredProvider(env.aiProvider), prompt, env, send) == Returned(None)
  {
  }

  /** Only an OK reply can produce a completion, and the escaped prompt is what is sent. */
  lemma CallAnswersOnlyOnOk(provider: AIProvider, prompt: string, env: Environment,
                            send: (AIProvider, string, string) -> HttpOutcome)
    ensures var out := CallProvider(provider, prompt, env, send);
      out.Returned? && out.response.Some? ==>
        && UsableKey(KeyFor(provider, env))
        && var reply := send(provider, KeyFor(provider, env).value, RequestBody(provider, prompt));
           reply.HttpResponse? && reply.status == 200 && out.response == ParseResponse(provider, reply.body)
    ensures CallProvider(provider, prompt, env, send).Threw? ==>
      UsableKey(KeyFor(provider, env)) && send(provider, KeyFor(provider, env).value, RequestBody(provider, prompt)).HttpFailed?
  {
  }

  // ===========================================================================
  // The response cache
  // ===========================================================================

  const MaxCacheSize: nat := 100

  /** The cache after a provider reply for key: non-blank replies are put, and an oversized map is cleared. */
  function CacheAfterReply(cache: map<string, string>, key: string, response: Option<string>): map<string, string>
  {
    if response.Some? && !IsBlank(response.value) then
      var put := cache[key := response.value];
      if |put| > MaxCacheSize then map[] else put
    else cache
  }

  /** A cache of at most 100 entries stays at most 100 entries. */
  lemma CacheStaysBounded(cache: map<string, string>, key: string, response: Option<string>)
    requires |cache| <= MaxCacheSize
    ensures |CacheAfterReply(cache, key, response)| <= MaxCacheSize
  {
  }

  /** Overflow empties the cache, the reply just stored included. */
  lemma CacheOverflowEmpties(cache: map<string, string>, key: string, response: Option<string>)
    requires |cache| == MaxCacheSize && key !in cache
    requires response.Some? && !IsBlank(response.value)
    ensures CacheAfterReply(cache, key, response) == map[]
    ensures |CacheAfterReply(cache, key, response)| == 0
  {
    assert |cache[key := response.value]| == |cache| + 1;
  }

  /** Below the limit, or when the key is already present, the reply is stored under its key and nothing else changes. */
  lemma CacheStoresReply(cache: map<string, string>, key: string, response: Option<string>)
    requires response.Some? && !IsBlank(response.value)
    requires |cache| < MaxCacheSize || (key in cache && |cache| <= MaxCacheSize)
    ensures var m := CacheAfterReply(cache, key, response);
      key in m && m[key] == response.value
      && forall k :: k in cache && k != key ==> k in m && m[k] == cache[k]
  {
    PutWithinLimit(cache, key, response.value);
  }

  /** Putting a key into a map below the limit, or overwriting one, stays within the limit. */
  lemma PutWithinLimit(cache: map<string, string>, key: string, v: string)
    requires |cache| < MaxCacheSize || (key in cache && |cache| <= MaxCacheSize)
    ensures |cache[key := v]| <= MaxCacheSize
  {
    if key in cache {
      assert cache[key := v].Keys == cache.Keys;
    } else {
      assert cache[key := v].Keys == cache.Keys + {key};
    }
  }

  /** Null and blank replies are never stored. */
  lemma CacheSkipsBlankReply(cache: map<string, string>, key: string, response: Option<string>)
    requires response.None? || forall k :: 0 <= k < |response.value| ==> response.value[k] <= ' '
    ensures CacheAfterReply(cache, key, response) == cache
  {
    if response.Some? { BlankIff(response.value); }
  }

  /** What getCompletion answers for a cache: the cached reply, else the provider's reply, and null on an exception. */
  function CompletionReply(cache: map<string, string>, codeContext: string, currentLine: string, env: Environment,
                           send: (AIProvider, string, string) -> HttpOutcome): Option<string>
  {
    var key := GenerateCacheKey(codeContext, currentLine);
    if key in cache then Some(cache[key])
    else
      match CallProvider(GetConfiguredProvider(env.aiProvider), BuildPrompt(codeContext, currentLine), env, send)
      case Threw => None
      case Returned(response) => response
  }

  /** The cache after getCompletion: untouched on a hit or an exception, else updated with the reply. */
  function CacheAfterCompletion(cache: map<string, string>, codeContext: string, currentLine: string, env: Environment,
                                send: (AIProvider, string, string) -> HttpOutcome): map<string, string>
  {
    var key := GenerateCacheKey(codeContext, currentLine);
    if key in cache then cache
    else
      match CallProvider(GetConfiguredProvider(env.aiProvider), BuildPrompt(codeContext, currentLine), env, send)
      case Threw => cache
      case Returned(response) => CacheAfterReply(cache, key, response)
  }

  /**
   * A cache hit answers from the cache without a request; a miss asks the
   * configured provider with the built prompt; only a non-blank reply can
   * enter the cache; the cache never passes 100 entries; and an unavailable
   * service answers null on a miss and leaves the cache as it was.
   */
  lemma CompletionCases(cache: map<string, string>, codeContext: string, currentLine: string, env: Environment,
                        send: (AIProvider, string, string) -> HttpOutcome)
    ensures var key := GenerateCacheKey(codeContext, currentLine);
      var reply := CompletionReply(cache, codeContext, currentLine, env, send);
      var after := CacheAfterCompletion(cache, codeContext, currentLine, env, send);
      && (key in cache ==> reply == Some(cache[key]) && after == cache)
      && (key !in cache && !IsAvailable(env) ==> reply == None && after == cache)
      && (after != cache ==> key !in cache && reply.Some? && !IsBlank(reply.value)
                             && (after == map[] || after == cache[key := reply.value]))
      && (|cache| <= MaxCacheSize ==> |after| <= MaxCacheSize)
  {
    var key := GenerateCacheKey(codeContext, currentLine);
    var reply := CompletionReply(cache, codeContext, currentLine, env, send);
    CacheStaysBoundedIf(cache, key, reply);
  }

  /** The completion service: its only state is the response cache. */
  class Service {
    var responseCache: map<string, string>

    ghost predicate Bounded()
      reads this
    {
      |responseCache| <= MaxCacheSize
    }

    constructor()
      ensures responseCache == map[] && Bounded()
    {
      responseCache := map[];
    }

    /** getCompletion, run to completion. */
    method GetCompletion(codeContext: string, currentLine: string, env: Environment,
                         send: (AIProvider, string, string) -> HttpOutcome) returns (result: Option<string>)
      modifies this
      ensures result == CompletionReply(old(responseCache), codeContext, currentLine, env, send)
      ensures responseCache == CacheAfterCompletion(old(responseCache), codeContext, currentLine, env, send)
      ensures old(Bounded()) ==> Bounded()
    {
      var cacheKey := GenerateCacheKey(codeContext, currentLine);
      if cacheKey in responseCache {
        return Some(responseCache[cacheKey]);
      }
      var prompt := BuildPrompt(codeContext, currentLine);
      var provider := GetConfiguredProvider(env.aiProvider);
      var outcome := CallProvider(provider, prompt, env, send);
      if outcome.Threw? {
        return None;
      }
      var response := outcome.response;
      ghost var before := responseCache;
      assert CacheAfterCompletion(before, codeContext, currentLine, env, send) == CacheAfterReply(before, cacheKey, response);
      assert CompletionReply(before, codeContext, currentLine, env, send) == response;
      if response.Some? && !IsBlank(response.value) {
        responseCache := responseCache[cacheKey := response.value];
        if |responseCache| > MaxCacheSize {
          responseCache := map[];
        }
      }
      CacheStaysBoundedIf(before, cacheKey, response);
      return response;
    }

    /** clearCache. */
    method ClearCache()
      modifies this
      ensures responseCache == map[] && Bounded()
    {
      responseCache := map[];
    }
  }

  lemma CacheStaysBoundedIf(cache: map<string, string>, key: string, response: Option<string>)
    ensures |cache| <= MaxCacheSize ==> |CacheAfterReply(cache, key, response)| <= MaxCacheSize
  {
    if |cache| <= MaxCacheSize {
      CacheStaysBounded(cache, key, response);
    }
  }
}
