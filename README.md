# AI copilot completion core, in Dafny

This project models the core of an IntelliJ plugin that offers AI code completions. The core has three parts:

- **CodeContextAnalyzer** reads the document around the caret. It collects the "package/import/from/require" lines, a short structure summary and a window of numbered source lines with a "█" marker at the caret. It joins them into one context string of at most 2000 characters plus a truncation marker. It also classifies the caret position: inside a comment, inside a method, inside a class, and which completion context applies.
- **AIService** builds the prompt, escapes it into an OpenAI or Claude JSON request, and scans the JSON reply by hand for the completion text. It keys a response cache by the Java `hashCode` of context plus line, and empties the cache when it would grow past 100 entries.
- **AICompletionProvider** decides whether to ask for a completion (file type, comment, incomplete code, line length). It strips Markdown code fences from the reply, builds the lookup item with truncated display text, and replaces the range in the editor when the item is inserted.

Modules:
- `JavaText` holds the Java string operations the code relies on (`trim`, `indexOf`, `replace`, `split("\n")`, `hashCode`, `String.valueOf(int)`, `distinct().limit(n)`).
- `TextIndex` holds the Document line arithmetic.
- `CodeContextAnalyzer`, `AIService` and `AICompletionProvider` follow the three source files.

Loops in the source are `method`s proved equal to specification functions, and the properties are lemmas about those functions. The service's cache is a field of class `AIService.Service`. The editor's text and caret are fields of class `AICompletionProvider.EditorBuffer`.

## Model

| member | source | states |
|---|---|---|
| CodeContextAnalyzer.LaterBranchesAfterJvm | src/main/java/com/harmless004/aicopilot/services/CodeContextAnalyzer.java:79-90 | once the package/import branch fails, the Python branch is exactly "starts with from " and the script branch is const/let with require |
| CodeContextAnalyzer.DependencyLineShape | src/main/java/com/harmless004/aicopilot/services/CodeContextAnalyzer.java:79-90 | a trimmed line is collected iff it starts with package, import or from, or is a const/let line mentioning require |
| CodeContextAnalyzer.CollectedDependencies | src/main/java/com/harmless004/aicopilot/services/CodeContextAnalyzer.java:69-96 | never collects more lines than it scans |
| CodeContextAnalyzer.StopFlags | src/main/java/com/harmless004/aicopilot/services/CodeContextAnalyzer.java:93-95 | one stop flag per line, true exactly where the scan stops after that line |
| CodeContextAnalyzer.ScanFrom | src/main/java/com/harmless004/aicopilot/services/CodeContextAnalyzer.java:69-96 | the scan ends within bounds |
| CodeContextAnalyzer.ScanFromFirstStop | src/main/java/com/harmless004/aicopilot/services/CodeContextAnalyzer.java:69-96 | the scan ends just after the first stopping line, or at the end when no line stops |
| CodeContextAnalyzer.ScannedLinesFirstStop | src/main/java/com/harmless004/aicopilot/services/CodeContextAnalyzer.java:69-96 | the same for the whole file: no earlier line stops, and the last scanned line does |
| CodeContextAnalyzer.SkippedLineNeverStops | src/main/java/com/harmless004/aicopilot/services/CodeContextAnalyzer.java:74-76 | blank and comment lines are skipped and never end the scan |
| CodeContextAnalyzer.ExtractImportsAndPackages | src/main/java/com/harmless004/aicopilot/services/CodeContextAnalyzer.java:63-102 | the loop computes the dependency text: distinct collected lines, at most 15, joined by newlines |
| CodeContextAnalyzer.ScanStep | src/main/java/com/harmless004/aicopilot/services/CodeContextAnalyzer.java:70-95 | a scanned line is appended iff it is not skipped and passes the dependency test; the scan stops after it iff it is not skipped and more than 50 lines are counted or more than 20 dependencies collected |
| CodeContextAnalyzer.DependencyListProperties | src/main/java/com/harmless004/aicopilot/services/CodeContextAnalyzer.java:98-101 | the list has at most 15 entries and no duplicates, keeps scan order, and holds only trimmed, non-comment dependency lines of the file |
| CodeContextAnalyzer.LimitOfDistinct | src/main/java/com/harmless004/aicopilot/services/CodeContextAnalyzer.java:98-100 | distinct then limit gives at most n distinct entries, an ordered subsequence of the input |
| CodeContextAnalyzer.CollectedLineOrigin | src/main/java/com/harmless004/aicopilot/services/CodeContextAnalyzer.java:72-90 | a collected line is non-empty, not a comment opener, passes the dependency test, is trimmed, and is the trim of one of the scanned lines |
| CodeContextAnalyzer.FirstN | src/main/java/com/harmless004/aicopilot/services/CodeContextAnalyzer.java:174-176 | substring(0, min(n, length)) is a prefix of at most n characters |
| CodeContextAnalyzer.HeaderLineProperties | src/main/java/com/harmless004/aicopilot/services/CodeContextAnalyzer.java:162-197 | class and method headers start with their tag and then hold one trimmed line with no '{'; only a text of newlines alone falls back to the node's display text |
| CodeContextAnalyzer.FieldInfoBound | src/main/java/com/harmless004/aicopilot/services/CodeContextAnalyzer.java:202-212 | a field header is "Field: " plus the trimmed text; a text longer than 80 characters keeps its first 80 characters and then "...", 90 characters in all |
| CodeContextAnalyzer.PsiInfosPrefix | src/main/java/com/harmless004/aicopilot/services/CodeContextAnalyzer.java:115-122 | walking fewer parents gives a prefix of the structure entries |
| CodeContextAnalyzer.CollectPsiStructure | src/main/java/com/harmless004/aicopilot/services/CodeContextAnalyzer.java:115-122 | the parent walk keeps the first five structure entries of the ancestor chain |
| CodeContextAnalyzer.PsiInfosSources | src/main/java/com/harmless004/aicopilot/services/CodeContextAnalyzer.java:141-157 | each structure entry comes from one class, method or field ancestor |
| CodeContextAnalyzer.PsiStructureBound | src/main/java/com/harmless004/aicopilot/services/CodeContextAnalyzer.java:133-135 | the structure section has at most five distinct entries, each from an ancestor |
| CodeContextAnalyzer.CutAtRemoves | src/main/java/com/harmless004/aicopilot/services/CodeContextAnalyzer.java:271-283 | cutting a declaration before a character removes every occurrence of it |
| CodeContextAnalyzer.CutAtKeepsAbsence | src/main/java/com/harmless004/aicopilot/services/CodeContextAnalyzer.java:271-283 | cutting never brings in a character that was absent |
| CodeContextAnalyzer.CleanDeclarationProperties | src/main/java/com/harmless004/aicopilot/services/CodeContextAnalyzer.java:271-283 | a cleaned declaration has no '{'; a Python def keeps its colon; any other line is cut before ':' and is at most 103 characters |
| CodeContextAnalyzer.ScanIndices | src/main/java/com/harmless004/aicopilot/services/CodeContextAnalyzer.java:225-229 | the text scan visits the current line and up to 20 lines above it, nearest first |
| CodeContextAnalyzer.LabelsOverSnoc | src/main/java/com/harmless004/aicopilot/services/CodeContextAnalyzer.java:228-240 | each visited line adds its label, if it has one, at the end |
| CodeContextAnalyzer.ExtractStructureFromText | src/main/java/com/harmless004/aicopilot/services/CodeContextAnalyzer.java:217-243 | the backwards loop computes the text-scan structure |
| CodeContextAnalyzer.LabelLine | src/main/java/com/harmless004/aicopilot/services/CodeContextAnalyzer.java:232-238 | a trimmed line is labelled Class, else Method, else Function, or not at all |
| CodeContextAnalyzer.AddLabel | src/main/java/com/harmless004/aicopilot/services/CodeContextAnalyzer.java:228-240 | one step of the text scan appends the line's label when it has one, and nothing for a line past the end |
| CodeContextAnalyzer.LabelsOverSources | src/main/java/com/harmless004/aicopilot/services/CodeContextAnalyzer.java:228-240 | every label comes from one visited line |
| CodeContextAnalyzer.TextScanWindow | src/main/java/com/harmless004/aicopilot/services/CodeContextAnalyzer.java:217-243 | every text-scan entry labels a line at most 20 lines above the caret line |
| CodeContextAnalyzer.ExtractStructureContext | src/main/java/com/harmless004/aicopilot/services/CodeContextAnalyzer.java:107-136 | structure comes from the PSI walk, falls back to the text scan when the walk finds nothing or fails, and is empty when both are empty, so the section is then left out of the context |
| CodeContextAnalyzer.WindowBounds | src/main/java/com/harmless004/aicopilot/services/CodeContextAnalyzer.java:290-298 | the window runs from 15 lines above the caret line to 5 below, clamped to the document |
| CodeContextAnalyzer.RenderedLines | src/main/java/com/harmless004/aicopilot/services/CodeContextAnalyzer.java:302-321 | one rendered line per document line |
| CodeContextAnalyzer.ConcatRangeSplit | src/main/java/com/harmless004/aicopilot/services/CodeContextAnalyzer.java:300-323 | the window text splits at any line |
| CodeContextAnalyzer.ConcatRangeAround | src/main/java/com/harmless004/aicopilot/services/CodeContextAnalyzer.java:300-323 | the window text is the lines before, the line itself and the lines after |
| CodeContextAnalyzer.ExtractSurroundingCode | src/main/java/com/harmless004/aicopilot/services/CodeContextAnalyzer.java:288-324 | the loop computes the code window |
| CodeContextAnalyzer.RenderLine | src/main/java/com/harmless004/aicopilot/services/CodeContextAnalyzer.java:304-319 | one window line is rendered as its document line: numbered, with the caret marker on the caret line |
| CodeContextAnalyzer.CursorLineRendering | src/main/java/com/harmless004/aicopilot/services/CodeContextAnalyzer.java:311-316 | the caret line is rendered with its number, the text before the caret, the "█" marker, the text after, and a newline |
| CodeContextAnalyzer.CursorLineInWindow | src/main/java/com/harmless004/aicopilot/services/CodeContextAnalyzer.java:297-323 | the caret line is inside the window, between the lines above and below it |
| CodeContextAnalyzer.MarkerDeletion | src/main/java/com/harmless004/aicopilot/services/CodeContextAnalyzer.java:311-316 | deleting the marker from the caret line gives back the document line |
| CodeContextAnalyzer.LimitContext | src/main/java/com/harmless004/aicopilot/services/CodeContextAnalyzer.java:52-55 | a context of at most 2000 characters is kept; a longer one keeps its first 2000 characters and then the truncation marker |
| CodeContextAnalyzer.LimitContextIdempotent | src/main/java/com/harmless004/aicopilot/services/CodeContextAnalyzer.java:52-55 | truncating twice is truncating once |
| CodeContextAnalyzer.AssembledContextLayout | src/main/java/com/harmless004/aicopilot/services/CodeContextAnalyzer.java:28-49 | the context is the header, the dependency section, the structure section and the code section, in that order; each optional section is absent exactly when its text is empty |
| CodeContextAnalyzer.FullContextOfParts | src/main/java/com/harmless004/aicopilot/services/CodeContextAnalyzer.java:28-58 | once the three section texts are fixed, the result is their limited assembly and at most 2028 characters |
| CodeContextAnalyzer.ExtractContext | src/main/java/com/harmless004/aicopilot/services/CodeContextAnalyzer.java:28-58 | the context is the header and the three sections, limited, and never longer than 2028 characters |
| CodeContextAnalyzer.NetBracesAppend | src/main/java/com/harmless004/aicopilot/services/CodeContextAnalyzer.java:386-389 | the brace balance of a concatenation is the sum of the balances |
| CodeContextAnalyzer.NetBracesOfJoin | src/main/java/com/harmless004/aicopilot/services/CodeContextAnalyzer.java:372-390 | counting per line equals counting over the joined text |
| CodeContextAnalyzer.NetBracesOfEmptyTail | src/main/java/com/harmless004/aicopilot/services/CodeContextAnalyzer.java:372-390 | empty trailing lines do not change the count |
| CodeContextAnalyzer.NetBracesSnoc | src/main/java/com/harmless004/aicopilot/services/CodeContextAnalyzer.java:386-389 | each '{' adds one, each '}' subtracts one |
| CodeContextAnalyzer.NetBracesOfLinesSnoc | src/main/java/com/harmless004/aicopilot/services/CodeContextAnalyzer.java:373-390 | each line adds its own balance |
| CodeContextAnalyzer.NetBracesOfSplit | src/main/java/com/harmless004/aicopilot/services/CodeContextAnalyzer.java:366-390 | the line-by-line count over split("\n") is the brace balance of the text before the caret |
| CodeContextAnalyzer.SignatureSeenIff | src/main/java/com/harmless004/aicopilot/services/CodeContextAnalyzer.java:376-383 | the found-signature flag after n lines is set exactly when one of those lines is a signature |
| CodeContextAnalyzer.ScanLine | src/main/java/com/harmless004/aicopilot/services/CodeContextAnalyzer.java:374-389 | one line sets the flag if it is a signature and adds its brace balance |
| CodeContextAnalyzer.InMethodAnswer | src/main/java/com/harmless004/aicopilot/services/CodeContextAnalyzer.java:392 | the loop's flag and brace count answer the question "a signature line before the caret and more braces open than closed" |
| CodeContextAnalyzer.IsInMethod | src/main/java/com/harmless004/aicopilot/services/CodeContextAnalyzer.java:365-393 | inside a method iff some line before the caret is a signature and more braces are open than closed |
| CodeContextAnalyzer.IsInClassIff | src/main/java/com/harmless004/aicopilot/services/CodeContextAnalyzer.java:398-401 | inside a class iff the text before the caret contains "class " |
| CodeContextAnalyzer.CompletionContextCascade | src/main/java/com/harmless004/aicopilot/services/CodeContextAnalyzer.java:406-431 | each completion context holds iff its test passes and every earlier test fails |
| CodeContextAnalyzer.IsInComment | src/main/java/com/harmless004/aicopilot/services/CodeContextAnalyzer.java:344-360 | with PSI, in a comment iff some ancestor is a comment; when PSI fails, iff the trimmed line starts with //, /* or # |
| CodeContextAnalyzer.AnalyzeCurrentContext | src/main/java/com/harmless004/aicopilot/services/CodeContextAnalyzer.java:329-339 | the record holds the current line, the class flag, the method flag (a signature line before the caret and more braces open than closed), the comment flag (a comment ancestor, or, when the PSI walk fails, a trimmed line starting with //, /* or #) and the context derived from the line and the comment flag |
| TextIndex.LineBounds | src/main/java/com/harmless004/aicopilot/services/CodeContextAnalyzer.java:304-306 | every document line lies in the text; consecutive lines are separated by one '\n' |
| TextIndex.CursorOnItsLine | src/main/java/com/harmless004/aicopilot/services/CodeContextAnalyzer.java:311-315 | the caret lies between its line's start and end |
| TextIndex.LineIsMaximal | src/main/java/com/harmless004/aicopilot/services/CodeContextAnalyzer.java:436-445 | the caret line is the largest newline-free slice around the caret |
| TextIndex.JavaSplitAgreesWithDocument | src/main/java/com/harmless004/aicopilot/services/CodeContextAnalyzer.java:220-230 | the lines of split("\n") are the document's lines |
| AIService.PromptRecovers | src/main/java/com/harmless004/aicopilot/services/AIService.java:94-105 | the prompt is the preamble, the context, the line heading, the line and the cue, and each part can be read back by position |
| AIService.EscapeJsonAppend | src/main/java/com/harmless004/aicopilot/services/AIService.java:319-325 | escaping works character by character: it distributes over concatenation |
| AIService.EscapeJsonSingle | src/main/java/com/harmless004/aicopilot/services/AIService.java:319-325 | the five chained replaces escape one character as JSON does for backslash, quote, \n, \r and \t |
| AIService.EscapeJsonTokens | src/main/java/com/harmless004/aicopilot/services/AIService.java:319-325 | the escaped text is the concatenation of the escaped characters |
| AIService.EscapedHasNoControl | src/main/java/com/harmless004/aicopilot/services/AIService.java:319-325 | escaped text holds no newline, carriage return or tab |
| AIService.EscapedQuotesArePreceded | src/main/java/com/harmless004/aicopilot/services/AIService.java:319-325 | every quote in escaped text follows a backslash |
| AIService.UnescapeEscapeRoundTrip | src/main/java/com/harmless004/aicopilot/services/AIService.java:319-336 | unescaping undoes escaping for text without backslashes |
| AIService.UnescapeByTokens | src/main/java/com/harmless004/aicopilot/services/AIService.java:330-336 | on text made of single characters and backslash pairs, the five chained replaces work piece by piece |
| AIService.BackslashBreaksRoundTrip | src/main/java/com/harmless004/aicopilot/services/AIService.java:330-336 | unescaping applies \\ before \n: the text `\n` escapes to `\\n`, which unescapes to a backslash and a newline |
| AIService.UnescapeKeepsQuoteOut | src/main/java/com/harmless004/aicopilot/services/AIService.java:330-336 | unescaping brings in no quote |
| AIService.ContentStart | src/main/java/com/harmless004/aicopilot/services/AIService.java:217-229 | the content starts inside the body, or there is no marker |
| AIService.OpenAIMarkerPreference | src/main/java/com/harmless004/aicopilot/services/AIService.java:217-229 | the spaced marker is tried before the tight one; with neither, the result is null |
| AIService.ContentEnd | src/main/java/com/harmless004/aicopilot/services/AIService.java:232-245 | the scan stops at the first unescaped quote, or at the end of the body |
| AIService.ContentEndUnique | src/main/java/com/harmless004/aicopilot/services/AIService.java:232-245 | that end is the only position with this property |
| AIService.ParseOpenAIResponse | src/main/java/com/harmless004/aicopilot/services/AIService.java:212-295 | the character loop with its escape flag computes the content up to the first unescaped quote, unescaped, or null when empty or no marker |
| AIService.OpenAIEmptyContent | src/main/java/com/harmless004/aicopilot/services/AIService.java:247-250 | the result is null iff the content is empty |
| AIService.OpenAIReadsEscapedContent | src/main/java/com/harmless004/aicopilot/services/AIService.java:212-258 | an escaped, backslash-free, non-empty string after the first marker is read back exactly |
| AIService.OpenAIQuotedText | src/main/java/com/harmless004/aicopilot/services/AIService.java:232-258 | escaped quotes inside the content do not end it: a quoted plain text reads back with its quotes |
| AIService.EscapeQuoted | src/main/java/com/harmless004/aicopilot/services/AIService.java:319-328 | escaping a quoted plain text puts a backslash before each quote and changes nothing else |
| AIService.ClaudeNeedsMarker | src/main/java/com/harmless004/aicopilot/services/AIService.java:300-314 | without the "text": marker the result is null |
| AIService.ClaudeStopsAtFirstQuote | src/main/java/com/harmless004/aicopilot/services/AIService.java:300-314 | the Claude text runs from the marker to the first quote of any kind, so it never holds a quote; it is null iff the text is empty or unterminated |
| AIService.CacheKeyIsPolynomialHash | src/main/java/com/harmless004/aicopilot/services/AIService.java:341-344 | the key is the decimal form of the 32-bit Java hash of context plus line |
| AIService.CacheKeySeesOnlyConcatenation | src/main/java/com/harmless004/aicopilot/services/AIService.java:341-344 | the key depends on the concatenation alone |
| AIService.CacheKeyCollisionExample | src/main/java/com/harmless004/aicopilot/services/AIService.java:341-344 | ("ab","c") and ("a","bc") share a key |
| AIService.CacheKeyDistinguishesHashes | src/main/java/com/harmless004/aicopilot/services/AIService.java:341-344 | different hashes give different keys |
| JavaText.IntToStringInjective | src/main/java/com/harmless004/aicopilot/services/AIService.java:343 | String.valueOf renders different integers differently |
| AIService.ProviderSelection | src/main/java/com/harmless004/aicopilot/services/AIService.java:349-355 | Claude iff the setting is "claude" in any case; OpenAI when unset |
| AIService.AvailabilityUsesSelectedKey | src/main/java/com/harmless004/aicopilot/services/AIService.java:360-370 | available iff the selected provider's key has a non-blank character; the other key plays no part |
| AIService.RequestCarriesPrompt | src/main/java/com/harmless004/aicopilot/services/AIService.java:123-140 | the request is the model header, the escaped prompt and the tail; the payload has no control characters and only escaped quotes, and it unescapes to the prompt |
| AIService.CallNeedsKey | src/main/java/com/harmless004/aicopilot/services/AIService.java:117-121 | without a usable key the call returns null and sends nothing |
| AIService.UnavailableMeansNull | src/main/java/com/harmless004/aicopilot/services/AIService.java:360-370 | an unavailable service returns null |
| AIService.CallAnswersOnlyOnOk | src/main/java/com/harmless004/aicopilot/services/AIService.java:157-164 | a reply needs a usable key and status 200, and it is the parse of that body; an exception needs a failed send |
| AIService.CacheStaysBounded | src/main/java/com/harmless004/aicopilot/services/AIService.java:73-80 | the cache never exceeds 100 entries |
| AIService.CacheOverflowEmpties | src/main/java/com/harmless004/aicopilot/services/AIService.java:74-79 | storing a new key in a full cache pushes it past 100 entries, and then the cache is cleared |
| AIService.CacheStoresReply | src/main/java/com/harmless004/aicopilot/services/AIService.java:73-80 | a non-blank reply is stored under its key and the other entries keep their values |
| AIService.PutWithinLimit | src/main/java/com/harmless004/aicopilot/services/AIService.java:74-79 | a put below the limit, or overwriting a present key, keeps at most 100 entries |
| AIService.CacheSkipsBlankReply | src/main/java/com/harmless004/aicopilot/services/AIService.java:73 | a null or blank reply leaves the cache alone |
| AIService.CompletionCases | src/main/java/com/harmless004/aicopilot/services/AIService.java:48-89 | a hit returns the cached text and keeps the cache; an unavailable miss returns null; the cache changes only on a miss with a non-blank reply; it stays bounded |
| AIService.Service.GetCompletion | src/main/java/com/harmless004/aicopilot/services/AIService.java:48-89 | the result and the new cache are those of one completion request, and the bound is kept |
| AIService.Service.ClearCache | src/main/java/com/harmless004/aicopilot/services/AIService.java:375-378 | the cache is empty afterwards |
| AICompletionProvider.GetCurrentLine | src/main/java/com/harmless004/aicopilot/completion/AICompletionProvider.java:159-166 | the current line is the largest newline-free slice of the document around the caret |
| AICompletionProvider.TriggerConditions | src/main/java/com/harmless004/aicopilot/completion/AICompletionProvider.java:85-129 | triggering needs an available service and a supported extension; given both, it fires iff in a comment, in incomplete code, or the trimmed line has at least 3 characters |
| AICompletionProvider.FileTypeIsCaseSensitive | src/main/java/com/harmless004/aicopilot/completion/AICompletionProvider.java:117-129 | the extension check is case-sensitive and a missing file type is unsupported |
| AICompletionProvider.DefinitionsAreIncomplete | src/main/java/com/harmless004/aicopilot/completion/AICompletionProvider.java:143-154 | every line the analyser calls a function definition, and every block start not ending in "(", counts as incomplete code |
| AICompletionProvider.KeywordMakesIncomplete | src/main/java/com/harmless004/aicopilot/completion/AICompletionProvider.java:149-153 | a line holding "def ", "function ", "public " or "private " counts as incomplete code |
| AICompletionProvider.WordRunLength | src/main/java/com/harmless004/aicopilot/completion/AICompletionProvider.java:199 | the language tag after a fence is the longest run of word characters |
| AICompletionProvider.StripLeavesNoFence | src/main/java/com/harmless004/aicopilot/completion/AICompletionProvider.java:199 | after the regex replace no "```" is left |
| AICompletionProvider.StripFenceFree | src/main/java/com/harmless004/aicopilot/completion/AICompletionProvider.java:199 | text without fences passes unchanged |
| AICompletionProvider.SecondPassIsIdle | src/main/java/com/harmless004/aicopilot/completion/AICompletionProvider.java:199-201 | the second, literal fence replace never changes anything |
| AICompletionProvider.CleanedIsTrimmedAndFenceFree | src/main/java/com/harmless004/aicopilot/completion/AICompletionProvider.java:197-206 | a cleaned suggestion is trimmed and holds no fence |
| AICompletionProvider.CleanIdempotent | src/main/java/com/harmless004/aicopilot/completion/AICompletionProvider.java:197-206 | cleaning twice is cleaning once |
| AICompletionProvider.CleanWithoutBackticks | src/main/java/com/harmless004/aicopilot/completion/AICompletionProvider.java:197-206 | without backticks, cleaning is trimming |
| AICompletionProvider.CleanBlank | src/main/java/com/harmless004/aicopilot/completion/AICompletionProvider.java:197-206 | a blank reply cleans to empty |
| AICompletionProvider.CleanFencedBlock | src/main/java/com/harmless004/aicopilot/completion/AICompletionProvider.java:197-206 | a fenced block with a language tag cleans to its trimmed code |
| AICompletionProvider.TruncateShape | src/main/java/com/harmless004/aicopilot/completion/AICompletionProvider.java:211-223 | up to 50 characters are shown whole; a longer text shows a newline-free prefix plus "...": its whole first line when that line ends within 50 characters, otherwise its first 47 characters; only an over-long text of newlines alone fails |
| AICompletionProvider.TruncateBound | src/main/java/com/harmless004/aicopilot/completion/AICompletionProvider.java:211-223 | display text is at most 53 characters, and a text of up to 50 is shown unchanged |
| AICompletionProvider.TruncateDefinedOnTrimmed | src/main/java/com/harmless004/aicopilot/completion/AICompletionProvider.java:171-188 | a cleaned, non-empty suggestion always has display text |
| AICompletionProvider.SuggestionItemProperties | src/main/java/com/harmless004/aicopilot/completion/AICompletionProvider.java:171-192 | an item appears iff the reply cleans to non-empty; it inserts the cleaned text, shows the icon and at most 53 characters, and has type "AI Suggestion" and priority 1000 |
| AICompletionProvider.AddCompletions | src/main/java/com/harmless004/aicopilot/completion/AICompletionProvider.java:40-80 | no trigger means no item and no request; otherwise one service request with the full context and current line, and its item unless the wait timed out |
| AICompletionProvider.ReplaceRange | src/main/java/com/harmless004/aicopilot/completion/AICompletionProvider.java:233-234 | the text before the range and after it are kept, and the suggestion sits in between |
| AICompletionProvider.ReplaceRangeUndo | src/main/java/com/harmless004/aicopilot/completion/AICompletionProvider.java:233-234 | replacing the inserted suggestion with the old range text gives back the document |
| AICompletionProvider.EditorBuffer.HandleAIInsert | src/main/java/com/harmless004/aicopilot/completion/AICompletionProvider.java:228-240 | the range is replaced by the suggestion and the caret moves to its end |

## Left out

- HTTP transport, URLs, headers, timeouts and JSON encoding of anything but the prompt: a request is a function `send` from provider, key and body to a status and body or a failure. Whitespace and field order in the request bodies follow the source literals.
- Environment variables: `Environment` holds the provider setting and the two keys as values.
- Logging and console output: nothing is modelled, as they do not change results.
- The executor, `CompletableFuture` and the `ConcurrentHashMap`: the cache is one map updated by one caller. `AddCompletions` takes the 3-second wait as a flag `timedOut`. The request still runs to completion and updates the cache, as it does in the source.
- PSI and Document APIs: the file is a string, the PSI parent chain is a sequence of nodes (or a failure), and the document is assumed to hold the same text as the PSI file.
- `ParseOpenAIResponse`: the emergency fallback scan after a caught exception is not modelled. Nothing on the main path can throw, so it is unreachable.
- `ProviderSelection`: `toLowerCase` and `equalsIgnoreCase` are modelled on ASCII letters only.
- `CacheKeyIsPolynomialHash`: `hashCode` sums UTF-16 units; characters outside the Basic Multilingual Plane are not split into surrogate pairs.
- The second Python test in the dependency scan (an `import` line containing "from") is subsumed by the first branch and has no separate effect.
- `LookupElementBuilder` and `CompletionResultSet` become the `LookupItem` record returned by `AddCompletions`. The icon is the three characters U+00E2 U+0153 U+00A8 and a space, as written in the source file.
- `TruncateShape`: `None` stands for the exception thrown when `split("\n")` returns no pieces and `[0]` is out of bounds. Only an over-long text of newlines alone reaches it.
- `UnescapeEscapeRoundTrip`: stated only for text without backslashes. With a backslash the source's unescaping is not an inverse, as `BackslashBreaksRoundTrip` shows.
- IntelliJ wiring: TriggerCompletionAction, AICompletionContributor and AICopilotSettings are not part of this model.
