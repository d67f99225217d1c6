/**
 * CodeContextAnalyzer: builds the bounded text bundle sent with a completion
 * request (file header, dependency lines, enclosing declarations, a numbered
 * code window with a cursor marker) and classifies the cursor position.
 *
 * The PSI tree is given as the chain of elements from the element at the
 * cursor up to the root (or as a failure, standing for an exception thrown
 * while walking it); the editor document is its text (see TextIndex).
 */
module CodeContextAnalyzer {
  import opened JavaText
  import opened TextIndex

  const MaxContextLength: nat := 2000
  const LinesBeforeCursor: nat := 15
  const LinesAfterCursor: nat := 5
  /** Appended after the first MaxContextLength characters of an over-long context. */
  const TruncationMarker: string := "\n... (truncated for brevity)"
  /** Inserted into the current line of the code window at the cursor column (U+2588 FULL BLOCK). */
  const CursorMarker: string := "\U{2588}"

  // ===========================================================================
  // Dependencies: package / import / from / require lines near the top
  // ===========================================================================

  /** Blank lines and lines opening a comment are skipped without a stop check. */
  predicate IsSkippedLine(trimmed: string)
  {
    trimmed == [] || StartsWith(trimmed, "//") || StartsWith(trimmed, "/*")
  }

  /** Java/Kotlin/Scala imports and package. */
  predicate IsJvmDependency(trimmed: string)
  {
    StartsWith(trimmed, "package ") || StartsWith(trimmed, "import ")
  }

  /** Python imports. */
  predicate IsPythonDependency(trimmed: string)
  {
    StartsWith(trimmed, "from ") || (StartsWith(trimmed, "import ") && !Contains(trimmed, "java"))
  }

  /** JavaScript/TypeScript imports and requires. */
  predicate IsScriptDependency(trimmed: string)
  {
    StartsWith(trimmed, "import ")
    || (StartsWith(trimmed, "const ") && Contains(trimmed, "require"))
    || (StartsWith(trimmed, "let ") && Contains(trimmed, "require"))
  }

  /** The three branches of the scan that add a trimmed line, in source order. */
  predicate IsDependencyLine(trimmed: string)
  {
    IsJvmDependency(trimmed) || IsPythonDependency(trimmed) || IsScriptDependency(trimmed)
  }

  /**
   * An "import " line is always taken by the first branch, so the later
   * branches add only "from " lines and const/let lines with a require.
   */
  lemma LaterBranchesAfterJvm(t: string)
    requires !IsJvmDependency(t)
    ensures IsPythonDependency(t) <==> StartsWith(t, "from ")
    ensures IsScriptDependency(t) <==> (StartsWith(t, "const ") || StartsWith(t, "let ")) && Contains(t, "require")
  {
  }

  /** A trimmed line the scan adds to its list: not skipped, and of dependency shape. */
  predicate IsCollected(trimmed: string)
  {
    !IsSkippedLine(trimmed) && IsDependencyLine(trimmed)
  }

  /** Every line of ls, trimmed. */
  function TrimmedLines(ls: seq<string>): (ts: seq<string>)
    ensures |ts| == |ls| && forall i :: 0 <= i < |ls| ==> ts[i] == Trim(ls[i])
  {
    seq(|ls|, i requires 0 <= i < |ls| => Trim(ls[i]))
  }

  /** The entries among the first n of ts that satisfy keep, in order. */
  function KeptAmong(ts: seq<string>, n: nat, keep: string -> bool): (r: seq<string>)
    requires n <= |ts|
    ensures |r| <= n
  {
    if n == 0 then []
    else KeptAmong(ts, n - 1, keep) + (if keep(ts[n - 1]) then [ts[n - 1]] else [])
  }

  /** The dependency lines among the first n lines of ls, trimmed, in order. */
  function CollectedDependencies(ls: seq<string>, n: nat): (deps: seq<string>)
    requires n <= |ls|
    ensures |deps| <= n
  {
    KeptAmong(TrimmedLines(ls), n, IsCollected)
  }

  /** After examining line k (0-based) the scan stops: the line was not skipped and more than 50 lines or 20 dependencies are behind it. */
  predicate StopsAt(ls: seq<string>, k: nat)
    requires k < |ls|
  {
    !IsSkippedLine(Trim(ls[k])) && (k + 1 > 50 || |CollectedDependencies(ls, k + 1)| > 20)
  }

  /** For each line, whether the scan stops after it. */
  function StopFlags(ls: seq<string>): (stops: seq<bool>)
    ensures |stops| == |ls|
    ensures forall k :: 0 <= k < |ls| ==> stops[k] == StopsAt(ls, k)
  {
    seq(|ls|, k requires 0 <= k < |ls| => StopsAt(ls, k))
  }

  /** How many lines the scan examines, counting from line i: through the first stop, or all. */
  function ScanFrom(stops: seq<bool>, i: nat): (n: nat)
    requires i <= |stops|
    ensures i <= n <= |stops|
    decreases |stops| - i
  {
    if i == |stops| then i
    else if stops[i] then i + 1
    else ScanFrom(stops, i + 1)
  }

  /** How many lines of split("\n") the dependency scan examines. */
  function ScannedLines(ls: seq<string>): nat
  {
    ScanFrom(StopFlags(ls), 0)
  }

  /**
   * The scan runs up to and including the first line where it stops, or to
   * the end when it never stops.
   */
  lemma {:induction false} ScanFromFirstStop(stops: seq<bool>, i: nat)
    requires i <= |stops|
    ensures var n := ScanFrom(stops, i);
      && (forall k :: i <= k < n - 1 ==> !stops[k])
      && (n < |stops| ==> i < n && stops[n - 1])
      && ((forall k :: i <= k < |stops| ==> !stops[k]) ==> n == |stops|)
    decreases |stops| - i
  {
    if i < |stops| && !stops[i] {
      ScanFromFirstStop(stops, i + 1);
    }
  }

  /** The dependency scan stops at its first stopping line, and runs to the end when there is none. */
  lemma ScannedLinesFirstStop(ls: seq<string>)
    ensures var n := ScannedLines(ls);
      && n <= |ls|
      && (forall k :: 0 <= k < n - 1 ==> !StopsAt(ls, k))
      && (n < |ls| ==> 0 < n && StopsAt(ls, n - 1))
      && ((forall k :: 0 <= k < |ls| ==> !StopsAt(ls, k)) ==> n == |ls|)
  {
    ScanFromFirstStop(StopFlags(ls), 0);
  }

  /** The dependency list extractImportsAndPackages joins: distinct, at most 15. */
  function DependencyList(text: string): seq<string>
  {
    var ls := JavaSplit(text);
    Limit(Distinct(CollectedDependencies(ls, ScannedLines(ls))), 15)
  }

  /** What extractImportsAndPackages returns. */
  function DependencyText(text: string): string
  {
    Join(DependencyList(text), "\n")
  }

  method ExtractImportsAndPackages(text: string) returns (imports: string)
    ensures imports == DependencyText(text)
  {
    var lines := JavaSplit(text);
    ghost var stops := StopFlags(lines);
    ghost var scanned := ScanFrom(stops, 0);
    var dependencies: seq<string> := [];
    var lineCount := 0;
    var i := 0;
    while i < |lines|
      invariant 0 <= i <= |lines| && lineCount == i
      invariant dependencies == CollectedDependencies(lines, i)
      invariant scanned == ScanFrom(stops, i)
    {
      lineCount := lineCount + 1;
      var trimmed := Trim(lines[i]);
      ScanStep(lines, i);
      if IsSkippedLine(trimmed) {
        i := i + 1;
        continue;
      }
      if IsDependencyLine(trimmed) {
        dependencies := dependencies + [trimmed];
      }
      if lineCount > 50 || |dependencies| > 20 {
        i := i + 1;
        break;
      }
      i := i + 1;
    }
    assert dependencies == CollectedDependencies(lines, scanned);
    imports := Join(Limit(Distinct(dependencies), 15), "\n");
  }

  /** One line of the scan: what it adds to the list, and whether the scan stops after it. */
  lemma ScanStep(lines: seq<string>, i: nat)
    requires i < |lines|
    ensures var t := Trim(lines[i]);
      && CollectedDependencies(lines, i + 1)
         == CollectedDependencies(lines, i) + (if !IsSkippedLine(t) && IsDependencyLine(t) then [t] else [])
      && (StopFlags(lines)[i] <==> !IsSkippedLine(t) && (i + 1 > 50 || |CollectedDependencies(lines, i + 1)| > 20))
  {
    assert TrimmedLines(lines)[i] == Trim(lines[i]);
  }

  /** Dependency shape without the redundant branch: package/import/from, or const/let with require. */
  lemma DependencyLineShape(t: string)
    ensures IsDependencyLine(t) <==>
      StartsWith(t, "package ") || StartsWith(t, "import ") || StartsWith(t, "from ")
      || ((StartsWith(t, "const ") || StartsWith(t, "let ")) && Contains(t, "require"))
  {
  }

  /**
   * The dependency list: at most 15 entries, no duplicates, in file order,
   * each a trimmed input line of dependency shape that is neither blank nor a
   * comment opener.
   */
  lemma {:induction false} DependencyListProperties(text: string)
    ensures var r := DependencyList(text); var ls := JavaSplit(text);
      && |r| <= 15
      && NoDuplicates(r)
      && IsSubsequence(r, CollectedDependencies(ls, ScannedLines(ls)))
      && forall e :: e in r ==>
           && IsDependencyLine(e) && e != [] && !StartsWith(e, "//") && !StartsWith(e, "/*")
           && IsTrimmed(e)
           && exists i :: 0 <= i < |ls| && e == Trim(ls[i])
  {
    var ls := JavaSplit(text);
    var n := ScannedLines(ls);
    var c := CollectedDependencies(ls, n);
    LimitOfDistinct(c, 15);
    forall e | e in DependencyList(text)
      ensures IsDependencyLine(e) && e != [] && !StartsWith(e, "//") && !StartsWith(e, "/*")
      ensures IsTrimmed(e)
      ensures exists i :: 0 <= i < |ls| && e == Trim(ls[i])
    {
      CollectedLineOrigin(ls, n, e);
    }
  }

  /** The first n distinct entries of c: no duplicates, a subsequence of c, drawn from c. */
  lemma {:induction false} LimitOfDistinct(c: seq<string>, n: nat)
    ensures var r := Limit(Distinct(c), n);
      |r| <= n && NoDuplicates(r) && IsSubsequence(r, c) && forall e :: e in r ==> e in c
  {
    var d := Distinct(c);
    var r := Limit(d, n);
    SubsequencePrefix(d, c, |r|);
    assert forall i :: 0 <= i < |r| ==> r[i] == d[i];
  }

  /** Every entry kept from the first n of ts satisfies keep and is one of them. */
  lemma {:induction false} KeptAmongOrigin(ts: seq<string>, n: nat, keep: string -> bool, e: string)
    requires n <= |ts| && e in KeptAmong(ts, n, keep)
    ensures keep(e) && exists i :: 0 <= i < n && e == ts[i]
    decreases n
  {
    if n > 0 {
      if e in KeptAmong(ts, n - 1, keep) {
        KeptAmongOrigin(ts, n - 1, keep, e);
      } else {
        assert e == ts[n - 1];
      }
    }
  }

  /**
   * Every entry collected from the first n lines is one of those lines,
   * trimmed, and passes the dependency test without being skipped.
   */
  lemma CollectedLineOrigin(ls: seq<string>, n: nat, e: string)
    requires n <= |ls| && e in CollectedDependencies(ls, n)
    ensures !IsSkippedLine(e) && IsDependencyLine(e) && IsTrimmed(e)
    ensures exists i :: 0 <= i < n && e == Trim(ls[i])
  {
    var ts := TrimmedLines(ls);
    KeptAmongOrigin(ts, n, IsCollected, e);
    var i :| 0 <= i < n && e == ts[i];
    TrimmedResult(ls[i]);
  }

  /** A skipped line never ends the scan, however many lines or dependencies precede it. */
  lemma SkippedLineNeverStops(ls: seq<string>, k: nat)
    requires k < |ls| && IsSkippedLine(Trim(ls[k]))
    ensures !StopsAt(ls, k)
  {
  }

  // ===========================================================================
  // Structure: enclosing classes, methods and fields
  // ===========================================================================

  /**
   * A PSI element: the simple name of its Java class, its text, its
   * toString(), and whether it is a PsiComment.
   */
  datatype PsiNode = PsiNode(typeName: string, text: string, display: string, isPsiComment: bool)

  /** findElementAt(offset) followed by getParent() up to the root; or an exception on the way. */
  datatype PsiView = Ancestors(chain: seq<PsiNode>) | PsiFailure

  function FirstN(s: string, n: nat): (r: string)
    ensures |r| <= n && |r| <= |s| && r == s[..|r|]
  {
    s[..if |s| < n then |s| else n]
  }

  /** The first line of a declaration, trimmed and cut before its first '{', or the fallback when the text has no line. */
  function HeaderLine(text: string, tag: string, display: string, fallbackWidth: nat): string
  {
    var lines := JavaSplit(text);
    if lines == [] then tag + FirstN(display, fallbackWidth)   // lines[0] throws; the catch branch
    else
      tag + CutAt(Trim(lines[0]), '{')
  }

  /**
   * A header is the tag and then, when split("\n") has a first line, that
   * line trimmed and cut before its first '{': trimmed, one line, no '{'.
   * Only a text of newlines alone has no first line and falls back.
   */
  lemma HeaderLineProperties(text: string, tag: string, display: string, fallbackWidth: nat)
    ensures var r := HeaderLine(text, tag, display, fallbackWidth);
      && StartsWith(r, tag)
      && (JavaSplit(text) != [] ==>
            var rest := r[|tag|..]; IsTrimmed(rest) && '{' !in rest && '\n' !in rest)
      && (JavaSplit(text) == [] ==> r == tag + FirstN(display, fallbackWidth))
  {
    var r := HeaderLine(text, tag, display, fallbackWidth);
    assert r[..|tag|] == tag;
    var lines := JavaSplit(text);
    if lines != [] {
      JavaSplitIsLinesPrefix(text);
      assert lines[0] == Lines(text)[0];
      var first := Trim(lines[0]);
      TrimIsSlice(lines[0]);
      assert '\n' !in first;
      assert r[|tag|..] == CutAt(first, '{');
      CutAtRemoves(first, '{');
      CutAtKeepsAbsence(first, '{', '\n');
      if Contains(first, ['{']) {
        TrimIsSlice(first[..IndexOf(first, ['{'])]);
      }
    }
  }

  /** extractClassInfo. */
  function ClassInfo(node: PsiNode): string
  {
    HeaderLine(node.text, "Class: ", node.display, 50)
  }

  /** extractMethodInfo. */
  function MethodInfo(node: PsiNode): string
  {
    HeaderLine(node.text, "Method: ", node.display, 60)
  }

  /** extractFieldInfo: the trimmed text, cut to 80 characters plus "..." when longer. */
  function FieldInfo(node: PsiNode): string
  {
    var t := Trim(node.text);
    "Field: " + (if |t| > 80 then t[..80] + "..." else t)
  }

  /** getElementStructureInfo: chosen by the element's class name, null for anything else. */
  function ElementStructureInfo(node: PsiNode): Option<string>
  {
    if Contains(node.typeName, "Class") then Some(ClassInfo(node))
    else if Contains(node.typeName, "Method") || Contains(node.typeName, "Function") then Some(MethodInfo(node))
    else if Contains(node.typeName, "Field") || Contains(node.typeName, "Variable") then Some(FieldInfo(node))
    else None
  }

  /** The non-null, non-empty infos of a chain, in walk order. */
  function PsiInfos(chain: seq<PsiNode>): seq<string>
    decreases |chain|
  {
    if chain == [] then []
    else
      var info := ElementStructureInfo(chain[|chain| - 1]);
      PsiInfos(chain[..|chain| - 1]) + (if info.Some? && info.value != [] then [info.value] else [])
  }

  lemma {:induction false} PsiInfosPrefix(chain: seq<PsiNode>, i: nat)
    requires i <= |chain|
    ensures |PsiInfos(chain[..i])| <= |PsiInfos(chain)|
    ensures PsiInfos(chain[..i]) == PsiInfos(chain)[..|PsiInfos(chain[..i])|]
    decreases |chain|
  {
    if i == |chain| {
      assert chain[..i] == chain;
    } else {
      var p := chain[..|chain| - 1];
      assert p[..i] == chain[..i];
      PsiInfosPrefix(p, i);
    }
  }

  lemma PsiInfosSnoc(chain: seq<PsiNode>, i: nat)
    requires i < |chain|
    ensures var info := ElementStructureInfo(chain[i]);
      PsiInfos(chain[..i + 1]) == PsiInfos(chain[..i]) + (if info.Some? && info.value != [] then [info.value] else [])
  {
    assert chain[..i + 1][..i] == chain[..i];
  }

  /** The PSI walk: up the chain while fewer than 5 entries are collected. */
  method CollectPsiStructure(chain: seq<PsiNode>) returns (structure: seq<string>)
    ensures structure == Limit(PsiInfos(chain), 5)
  {
    structure := [];
    var i := 0;
    while i < |chain| && |structure| < 5
      invariant 0 <= i <= |chain|
      invariant structure == PsiInfos(chain[..i])
      invariant |structure| <= 5
    {
      PsiInfosSnoc(chain, i);
      var info := ElementStructureInfo(chain[i]);
      if info.Some? && info.value != [] {
        structure := structure + [info.value];
      }
      i := i + 1;
    }
    PsiInfosPrefix(chain, i);
    if i == |chain| {
      assert chain[..i] == chain;
    }
  }

  // --- text fallback ---------------------------------------------------------

  predicate IsClassDeclaration(line: string)
  {
    Contains(line, "class ") && !StartsWith(line, "//") && !StartsWith(line, "*")
  }

  predicate IsMethodDeclaration(line: string)
  {
    (Contains(line, "public ") || Contains(line, "private ") || Contains(line, "protected "))
    && Contains(line, "(") && !StartsWith(line, "//")
  }

  predicate IsFunctionDeclaration(line: string)
  {
    (StartsWith(line, "def ") || Contains(line, "function ")) && Contains(line, "(") && !StartsWith(line, "//")
  }

  /** The text before the first c, trimmed, when there is a c; else the text itself. */
  function CutAt(s: string, c: char): string
  {
    if Contains(s, [c]) then Trim(s[..IndexOf(s, [c])]) else s
  }

  /** cleanDeclaration. */
  function CleanDeclaration(line: string): string
  {
    var l := CutAt(line, '{');
    if Contains(l, ":") && StartsWith(Trim(l), "def ") then l   // Python function - keep the colon
    else
      var m := CutAt(l, ':');
      if |m| > 100 then m[..100] + "..." else m
  }

  lemma CutAtRemoves(s: string, c: char)
    ensures c !in CutAt(s, c)
  {
    ContainsIff(s, [c]);
    if Contains(s, [c]) {
      var k := IndexOf(s, [c]);
      forall j | 0 <= j < k ensures s[j] != c {
        assert !MatchesAt(s, [c], j);
        assert s[j..j + 1] == [s[j]];
      }
      TrimIsSlice(s[..k]);
    } else {
      forall j | 0 <= j < |s| ensures s[j] != c {
        assert !MatchesAt(s, [c], j);
        assert s[j..j + 1] == [s[j]];
      }
    }
  }

  lemma CutAtKeepsAbsence(s: string, c: char, d: char)
    requires d !in s
    ensures d !in CutAt(s, c)
  {
    if Contains(s, [c]) {
      TrimIsSlice(s[..IndexOf(s, [c])]);
    }
  }

  /**
   * cleanDeclaration never leaves a '{'; it keeps a ':' exactly for a "def "
   * line that has one (returned untruncated), and any other result has no
   * ':' and is at most 103 characters.
   */
  lemma CleanDeclarationProperties(line: string)
    ensures var r := CleanDeclaration(line); var l := CutAt(line, '{');
      && '{' !in r
      && (Contains(l, ":") && StartsWith(Trim(l), "def ") ==> r == l)
      && (!(Contains(l, ":") && StartsWith(Trim(l), "def ")) ==> |r| <= 103 && ':' !in r)
  {
    var l := CutAt(line, '{');
    CutAtRemoves(line, '{');
    CutAtRemoves(l, ':');
    CutAtKeepsAbsence(l, ':', '{');
  }

  /** The label of a trimmed line in the text scan: Class, else Method, else Function. */
  function DeclarationLabel(line: string): Option<string>
  {
    if IsClassDeclaration(line) then Some("Class: " + CleanDeclaration(line))
    else if IsMethodDeclaration(line) then Some("Method: " + CleanDeclaration(line))
    else if IsFunctionDeclaration(line) then Some("Function: " + CleanDeclaration(line))
    else None
  }

  /** The label for line i of split("\n"): none when the split has no such line. */
  function LabelAt(lines: seq<string>, i: nat): Option<string>
  {
    if i < |lines| then DeclarationLabel(Trim(lines[i])) else None
  }

  /** The lines the text scan inspects: currentLine down to max(0, currentLine - 20), nearest first. */
  function ScanIndices(currentLine: nat): (idx: seq<nat>)
    ensures |idx| == (if currentLine < 20 then currentLine else 20) + 1
    ensures forall k :: 0 <= k < |idx| ==> idx[k] == currentLine - k
  {
    var n := if currentLine < 20 then currentLine + 1 else 21;
    seq(n, k requires 0 <= k < n => currentLine - k)
  }

  /** The labels of the given line indices, in that order, skipping unlabelled lines. */
  function LabelsOver(lines: seq<string>, idx: seq<nat>): seq<string>
    decreases |idx|
  {
    if idx == [] then []
    else
      var l := LabelAt(lines, idx[|idx| - 1]);
      LabelsOver(lines, idx[..|idx| - 1]) + (if l.Some? then [l.value] else [])
  }

  lemma LabelsOverSnoc(lines: seq<string>, idx: seq<nat>, n: nat)
    requires n < |idx|
    ensures LabelsOver(lines, idx[..n + 1]) ==
      LabelsOver(lines, idx[..n]) + (if LabelAt(lines, idx[n]).Some? then [LabelAt(lines, idx[n]).value] else [])
  {
    assert idx[..n + 1][..n] == idx[..n];
  }

  /** The entries of extractStructureFromText: no cap, no dedup. */
  function TextScanEntries(text: string, offset: nat): seq<string>
    requires offset <= |text|
  {
    LabelsOver(JavaSplit(text), ScanIndices(LineNumber(text, offset)))
  }

  /** extractStructureFromText; without a document it returns "". */
  function TextScanText(text: string, offset: nat, docAvailable: bool): string
    requires offset <= |text|
  {
    if !docAvailable then "" else Join(TextScanEntries(text, offset), "\n")
  }

  method ExtractStructureFromText(text: string, offset: nat, docAvailable: bool) returns (r: string)
    requires offset <= |text|
    ensures r == TextScanText(text, offset, docAvailable)
  {
    if !docAvailable {
      return "";
    }
    var lines := JavaSplit(text);
    var structure: seq<string> := [];
    var currentLine := LineNumber(text, offset);
    ghost var idx := ScanIndices(currentLine);
    var i: int := currentLine;
    while i >= 0 && i >= currentLine - 20
      invariant -1 <= i <= currentLine
      invariant 0 <= currentLine - i <= |idx|
      invariant i < 0 || i < currentLine - 20 ==> currentLine - i == |idx|
      invariant structure == LabelsOver(lines, idx[..currentLine - i])
      decreases i + 1
    {
      LabelsOverSnoc(lines, idx, currentLine - i);
      assert idx[currentLine - i] == i;
      structure := AddLabel(lines, i, structure);
      i := i - 1;
    }
    assert idx[..currentLine - i] == idx;
    r := Join(structure, "\n");
  }

  /** One step of the text scan: line i's label, if it has one, joins the structure. */
  method AddLabel(lines: seq<string>, i: nat, structure: seq<string>) returns (r: seq<string>)
    ensures r == structure + (if LabelAt(lines, i).Some? then [LabelAt(lines, i).value] else [])
  {
    r := structure;
    if i < |lines| {
      var line := Trim(lines[i]);
      var entry := LabelLine(line);
      if entry.Some? {
        r := r + [entry.value];
      }
    }
  }

  /** The class, method and function tests of the text scan, in that order, on one trimmed line. */
  method LabelLine(line: string) returns (entry: Option<string>)
    ensures entry == DeclarationLabel(line)
  {
    if IsClassDeclaration(line) {
      entry := Some("Class: " + CleanDeclaration(line));
    } else if IsMethodDeclaration(line) {
      entry := Some("Method: " + CleanDeclaration(line));
    } else if IsFunctionDeclaration(line) {
      entry := Some("Function: " + CleanDeclaration(line));
    } else {
      entry := None;
    }
  }

  /** Every text-scan entry is the label of a line between max(0, currentLine - 20) and currentLine. */
  lemma {:induction false} LabelsOverSources(lines: seq<string>, idx: seq<nat>, e: string)
    requires e in LabelsOver(lines, idx)
    ensures exists k :: 0 <= k < |idx| && LabelAt(lines, idx[k]) == Some(e)
    decreases |idx|
  {
    var p := idx[..|idx| - 1];
    if e in LabelsOver(lines, p) {
      LabelsOverSources(lines, p, e);
      var k :| 0 <= k < |p| && LabelAt(lines, p[k]) == Some(e);
      assert idx[k] == p[k];
    }
  }

  lemma TextScanWindow(text: string, offset: nat, e: string)
    requires offset <= |text| && e in TextScanEntries(text, offset)
    ensures var cur := LineNumber(text, offset); var ls := JavaSplit(text);
      exists i :: (if cur < 20 then 0 else cur - 20) <= i <= cur && i < |ls|
                  && DeclarationLabel(Trim(ls[i])) == Some(e)
  {
    var idx := ScanIndices(LineNumber(text, offset));
    LabelsOverSources(JavaSplit(text), idx, e);
  }

  /** The structure context as the walk (or its fallback) produces it. */
  function StructureText(text: string, offset: nat, psi: PsiView, docAvailable: bool): string
    requires offset <= |text|
  {
    match psi
    case PsiFailure => TextScanText(text, offset, docAvailable)
    case Ancestors(chain) =>
      var structure := Limit(PsiInfos(chain), 5);
      if structure == [] then TextScanText(text, offset, docAvailable)
      else Join(Distinct(structure), "\n")
  }

  /** extractStructureContext. */
  method ExtractStructureContext(text: string, offset: nat, psi: PsiView, docAvailable: bool) returns (r: string)
    requires offset <= |text|
    ensures r == StructureText(text, offset, psi, docAvailable)
  {
    match psi {
      case PsiFailure =>
        r := ExtractStructureFromText(text, offset, docAvailable);
      case Ancestors(chain) =>
        var structure := CollectPsiStructure(chain);
        if structure == [] {
          r := ExtractStructureFromText(text, offset, docAvailable);
        } else {
          r := Join(Distinct(structure), "\n");
        }
    }
  }

  /** The PSI walk yields at most 5 distinct entries, each the info of some ancestor. */
  lemma {:induction false} PsiStructureBound(chain: seq<PsiNode>)
    ensures var r := Distinct(Limit(PsiInfos(chain), 5));
      |r| <= 5 && NoDuplicates(r)
      && forall e :: e in r ==> exists k :: 0 <= k < |chain| && ElementStructureInfo(chain[k]) == Some(e)
  {
    var infos := PsiInfos(chain);
    forall e | e in Distinct(Limit(infos, 5))
      ensures exists k :: 0 <= k < |chain| && ElementStructureInfo(chain[k]) == Some(e)
    {
      assert e in infos;
      PsiInfosSources(chain, e);
    }
  }

  lemma {:induction false} PsiInfosSources(chain: seq<PsiNode>, e: string)
    requires e in PsiInfos(chain)
    ensures exists k :: 0 <= k < |chain| && ElementStructureInfo(chain[k]) == Some(e)
    decreases |chain|
  {
    var p := chain[..|chain| - 1];
    if e in PsiInfos(p) {
      PsiInfosSources(p, e);
      var k :| 0 <= k < |p| && ElementStructureInfo(p[k]) == Some(e);
      assert chain[k] == p[k];
    }
  }

  /** Field info is "Field: " plus at most 83 characters: the first 80 trimmed characters and "..." when cut. */
  lemma FieldInfoBound(node: PsiNode)
    ensures |FieldInfo(node)| <= 7 + 83
    ensures |Trim(node.text)| > 80 ==>
      && StartsWith(FieldInfo(node), "Field: " + Trim(node.text)[..80])
      && EndsWith(FieldInfo(node), "...") && |FieldInfo(node)| == 7 + 83
    ensures |Trim(node.text)| <= 80 ==> FieldInfo(node) == "Field: " + Trim(node.text)
  {
  }

  // ===========================================================================
  // Code window
  // ===========================================================================

  function Min(a: int, b: int): int { if a < b then a else b }

  /** First line of the window: currentLine - min(15, currentLine). */
  function WindowStart(text: string, offset: nat): nat
    requires offset <= |text|
  {
    var cur := LineNumber(text, offset);
    cur - Min(LinesBeforeCursor, cur)
  }

  /** Last line of the window: currentLine + min(5, totalLines - currentLine - 1). */
  function WindowEnd(text: string, offset: nat): nat
    requires offset <= |text|
  {
    var cur := LineNumber(text, offset);
    CursorOnItsLine(text, offset);
    cur + Min(LinesAfterCursor, LineCount(text) - cur - 1)
  }

  /** String.format("%3d: ", line + 1). */
  function LineNumberPrefix(line: nat): string
  {
    Pad3(line + 1) + ": "
  }

  /** One rendered line of the window; the cursor line gets the marker at min(offset - lineStart, length). */
  function RenderedLine(text: string, offset: nat, i: nat): string
    requires offset <= |text| && i < LineCount(text)
  {
    var lineText := LineText(text, i);
    if i == LineNumber(text, offset) then
      var cursorPos: int := offset - LineStartOffset(text, i);
      var cut := Min(cursorPos, |lineText|);
      CursorOnItsLine(text, offset);
      LineBounds(text, i);
      LineNumberPrefix(i) + lineText[..cut] + CursorMarker + lineText[cut..] + "\n"
    else
      LineNumberPrefix(i) + lineText + "\n"
  }

  /** Every line of the document, rendered. */
  function RenderedLines(text: string, offset: nat): (parts: seq<string>)
    requires offset <= |text|
    ensures |parts| == LineCount(text)
    ensures forall i :: 0 <= i < |parts| ==> parts[i] == RenderedLine(text, offset, i)
  {
    seq(LineCount(text), i requires 0 <= i < LineCount(text) => RenderedLine(text, offset, i))
  }

  /** parts[from..to] that exist, concatenated. */
  function ConcatRange(parts: seq<string>, from: nat, to: nat): string
    decreases if to <= from then 0 else to - from
  {
    if to <= from then ""
    else ConcatRange(parts, from, to - 1) + (if to - 1 < |parts| then parts[to - 1] else "")
  }

  /** What extractSurroundingCode returns. */
  function CodeWindow(text: string, offset: nat): string
    requires offset <= |text|
  {
    ConcatRange(RenderedLines(text, offset), WindowStart(text, offset), WindowEnd(text, offset) + 1)
  }

  method ExtractSurroundingCode(text: string, offset: nat) returns (code: string)
    requires offset <= |text|
    ensures code == CodeWindow(text, offset)
  {
    var currentLineNum := LineNumber(text, offset);
    var totalLines: int := LineCount(text);
    CursorOnItsLine(text, offset);
    var beforeLines := Min(LinesBeforeCursor, currentLineNum);
    var afterLines := Min(LinesAfterCursor, totalLines - currentLineNum - 1);
    var startLine := currentLineNum - beforeLines;
    var endLine := currentLineNum + afterLines;
    assert startLine == WindowStart(text, offset) && endLine == WindowEnd(text, offset);
    ghost var parts := RenderedLines(text, offset);
    code := "";
    var i := startLine;
    while i <= endLine
      invariant startLine <= i <= endLine + 1
      invariant code == ConcatRange(parts, startLine, i)
    {
      if 0 <= i < totalLines {
        var rendered := RenderLine(text, offset, i, currentLineNum);
        code := code + rendered;
      }
      assert ConcatRange(parts, startLine, i + 1)
          == ConcatRange(parts, startLine, i) + (if i < |parts| then parts[i] else "");
      i := i + 1;
    }
  }

  /** The body of the window loop for one existing line: its number, its text, and the marker on the cursor line. */
  method RenderLine(text: string, offset: nat, i: nat, currentLineNum: nat) returns (rendered: string)
    requires offset <= |text| && i < LineCount(text) && currentLineNum == LineNumber(text, offset)
    ensures rendered == RenderedLine(text, offset, i)
  {
    var lineStart := LineStartOffset(text, i);
    var lineEnd := LineEndOffset(text, i);
    LineBounds(text, i);
    var lineText := text[lineStart..lineEnd];
    assert lineText == LineText(text, i);
    var lineNumber := LineNumberPrefix(i);
    if i == currentLineNum {
      CursorOnItsLine(text, offset);
      var cursorPos := offset - lineStart;
      var beforeCursor := lineText[..Min(cursorPos, |lineText|)];
      var afterCursor := lineText[Min(cursorPos, |lineText|)..];
      rendered := lineNumber + beforeCursor + CursorMarker + afterCursor + "\n";
    } else {
      rendered := lineNumber + lineText + "\n";
    }
  }

  /** The window is lines max(0, cur-15) .. min(total-1, cur+5), and it contains the cursor line. */
  lemma WindowBounds(text: string, offset: nat)
    requires offset <= |text|
    ensures var cur := LineNumber(text, offset);
      && WindowStart(text, offset) == (if cur < 15 then 0 else cur - 15)
      && WindowEnd(text, offset) == Min(LineCount(text) - 1, cur + 5)
      && WindowStart(text, offset) <= cur <= WindowEnd(text, offset) < LineCount(text)
  {
    CursorOnItsLine(text, offset);
  }

  lemma {:induction false} ConcatRangeSplit(parts: seq<string>, a: nat, b: nat, c: nat)
    requires a <= b <= c
    ensures ConcatRange(parts, a, c) == ConcatRange(parts, a, b) + ConcatRange(parts, b, c)
    decreases c - b
  {
    if b < c {
      ConcatRangeSplit(parts, a, b, c - 1);
    }
  }

  /** The cursor line is the text from its line start to the offset, the marker, and the rest of the line. */
  lemma CursorLineRendering(text: string, offset: nat)
    requires offset <= |text|
    ensures LineNumber(text, offset) < LineCount(text)
    ensures var cur := LineNumber(text, offset);
      var st := LineStartOffset(text, cur); var en := LineEndOffset(text, cur);
      && st <= offset <= en <= |text|
      && RenderedLine(text, offset, cur)
         == LineNumberPrefix(cur) + text[st..offset] + CursorMarker + text[offset..en] + "\n"
  {
    var cur := LineNumber(text, offset);
    CursorOnItsLine(text, offset);
    LineBounds(text, cur);
    var st := LineStartOffset(text, cur);
    var en := LineEndOffset(text, cur);
    var lineText := LineText(text, cur);
    assert lineText[..offset - st] == text[st..offset];
    assert lineText[offset - st..] == text[offset..en];
  }

  /** The window is the lines before the cursor line, the cursor line, and the lines after it. */
  lemma {:induction false} CursorLineInWindow(text: string, offset: nat)
    requires offset <= |text|
    ensures LineNumber(text, offset) < LineCount(text)
    ensures var cur := LineNumber(text, offset); var parts := RenderedLines(text, offset);
      CodeWindow(text, offset) ==
        ConcatRange(parts, WindowStart(text, offset), cur)
        + RenderedLine(text, offset, cur)
        + ConcatRange(parts, cur + 1, WindowEnd(text, offset) + 1)
  {
    var cur := LineNumber(text, offset);
    CursorOnItsLine(text, offset);
    var parts := RenderedLines(text, offset);
    var a := WindowStart(text, offset);
    var b := WindowEnd(text, offset) + 1;
    assert a <= cur < b;
    assert parts[cur] == RenderedLine(text, offset, cur);
    ConcatRangeAround(parts, a, cur, b);
  }

  lemma {:induction false} ConcatRangeAround(parts: seq<string>, a: nat, c: nat, b: nat)
    requires a <= c < b && c < |parts|
    ensures ConcatRange(parts, a, b) == ConcatRange(parts, a, c) + parts[c] + ConcatRange(parts, c + 1, b)
  {
    ConcatRangeSplit(parts, a, c, b);
    ConcatRangeSplit(parts, c, c + 1, b);
    ConcatRangeOne(parts, c);
  }

  lemma ConcatRangeOne(parts: seq<string>, c: nat)
    requires c < |parts|
    ensures ConcatRange(parts, c, c + 1) == parts[c]
  {
    assert ConcatRange(parts, c, c + 1) == ConcatRange(parts, c, c) + parts[c];
  }

  /** Deleting the marker from the rendered cursor line gives the line as every other line is rendered. */
  lemma MarkerDeletion(text: string, offset: nat)
    requires offset <= |text|
    ensures LineNumber(text, offset) < LineCount(text)
    ensures var cur := LineNumber(text, offset);
      exists before, after :: RenderedLine(text, offset, cur) == LineNumberPrefix(cur) + before + CursorMarker + after + "\n"
                              && before + after == LineText(text, cur)
  {
    var cur := LineNumber(text, offset);
    CursorOnItsLine(text, offset);
    var lineText := LineText(text, cur);
    var cut := Min(offset - LineStartOffset(text, cur), |lineText|);
    assert lineText[..cut] + lineText[cut..] == lineText;
    assert RenderedLine(text, offset, cur) == LineNumberPrefix(cur) + lineText[..cut] + CursorMarker + lineText[cut..] + "\n";
  }

  // ===========================================================================
  // Assembly and truncation
  // ===========================================================================

  /** The first two lines of the context and the blank line after them. */
  function ContextHeader(fileName: string, language: string): string
  {
    "File: " + fileName + "\n" + "Language: " + language + "\n\n"
  }

  /** The context so far, followed by a headed section and a blank line when the body is non-empty. */
  function AddSection(context: string, heading: string, body: string): string
  {
    if body != [] then context + heading + body + "\n\n" else context
  }

  /** The context before truncation: header, Dependencies and Structure sections, code. */
  function AssembledContext(fileName: string, language: string, imports: string, structure: string, code: string): string
  {
    AddSection(AddSection(ContextHeader(fileName, language), "Dependencies:\n", imports),
               "Structure Context:\n", structure)
    + "Code Context:\n" + code
  }

  /** The headed section as it appears in the context, or nothing for an empty body. */
  function SectionText(heading: string, body: string): string
  {
    if body != [] then heading + body + "\n\n" else ""
  }

  lemma AddSectionAppends(context: string, heading: string, body: string)
    ensures AddSection(context, heading, body) == context + SectionText(heading, body)
  {
    if body != [] {
      assert context + heading + body + "\n\n" == context + (heading + body + "\n\n");
    }
  }

  /**
   * The context reads back by position: the header, the Dependencies section
   * (present only for non-empty imports), the Structure section (likewise),
   * then the code section.
   */
  lemma AssembledContextLayout(fileName: string, language: string, imports: string, structure: string, code: string)
    ensures var r := AssembledContext(fileName, language, imports, structure, code);
      var h := ContextHeader(fileName, language);
      var d := SectionText("Dependencies:\n", imports);
      var st := SectionText("Structure Context:\n", structure);
      && |r| == |h| + |d| + |st| + |"Code Context:\n"| + |code|
      && r[..|h|] == h
      && r[|h|..|h| + |d|] == d
      && r[|h| + |d|..|h| + |d| + |st|] == st
      && r[|h| + |d| + |st|..] == "Code Context:\n" + code
      && (d == [] <==> imports == []) && (st == [] <==> structure == [])
  {
    var h := ContextHeader(fileName, language);
    var d := SectionText("Dependencies:\n", imports);
    var st := SectionText("Structure Context:\n", structure);
    var c := "Code Context:\n" + code;
    AddSectionAppends(h, "Dependencies:\n", imports);
    AddSectionAppends(h + d, "Structure Context:\n", structure);
    var r := AssembledContext(fileName, language, imports, structure, code);
    assert r == h + d + st + "Code Context:\n" + code;
    assert r == ((h + d) + st) + c;
  }

  /** Up to 2000 characters: unchanged; over: the first 2000 followed by the marker. */
  function LimitContext(full: string): (r: string)
    ensures |full| <= MaxContextLength ==> r == full
    ensures |full| > MaxContextLength ==>
      |r| == MaxContextLength + |TruncationMarker| && r[..MaxContextLength] == full[..MaxContextLength]
      && r[MaxContextLength..] == TruncationMarker
  {
    if |full| > MaxContextLength then full[..MaxContextLength] + TruncationMarker else full
  }

  /** Limiting twice is limiting once: a truncated context is over the limit and cut at the same place. */
  lemma LimitContextIdempotent(full: string)
    ensures LimitContext(LimitContext(full)) == LimitContext(full)
  {
    var r := LimitContext(full);
    if |full| > MaxContextLength {
      assert r[..MaxContextLength] + TruncationMarker == r;
    }
  }

  /** extractContext's answer: the assembled sections, cut to the length limit. */
  function FullContext(fileName: string, language: string, text: string, offset: nat,
                       psi: PsiView, docAvailable: bool): string
    requires offset <= |text|
  {
    LimitContext(AssembledContext(fileName, language, DependencyText(text),
                                  StructureText(text, offset, psi, docAvailable), CodeWindow(text, offset)))
  }

  /** extractContext. */
  method ExtractContext(fileName: string, language: string, text: string, offset: nat,
                        psi: PsiView, docAvailable: bool) returns (result: string)
    requires offset <= |text|
    ensures result == FullContext(fileName, language, text, offset, psi, docAvailable)
    ensures |result| <= 2028
  {
    var context := "File: " + fileName + "\n";
    context := context + "Language: " + language + "\n\n";
    ghost var header := context;
    var imports := ExtractImportsAndPackages(text);
    if imports != [] {
      context := context + "Dependencies:\n" + imports + "\n\n";
    }
    ghost var withImports := context;
    var structureContext := ExtractStructureContext(text, offset, psi, docAvailable);
    if structureContext != [] {
      context := context + "Structure Context:\n" + structureContext + "\n\n";
    }
    var codeContext := ExtractSurroundingCode(text, offset);
    context := context + "Code Context:\n" + codeContext;
    assert context == AssembledContext(fileName, language, imports, structureContext, codeContext) by {
      assert header == ContextHeader(fileName, language);
      assert withImports == AddSection(header, "Dependencies:\n", imports);
    }
    result := context;
    if |result| > MaxContextLength {
      result := result[..MaxContextLength] + TruncationMarker;
    }
    FullContextOfParts(fileName, language, text, offset, psi, docAvailable, imports, structureContext, codeContext);
  }

  lemma FullContextOfParts(fileName: string, language: string, text: string, offset: nat,
                           psi: PsiView, docAvailable: bool, imports: string, structure: string, code: string)
    requires offset <= |text|
    requires imports == DependencyText(text) && structure == StructureText(text, offset, psi, docAvailable)
    requires code == CodeWindow(text, offset)
    ensures var r := FullContext(fileName, language, text, offset, psi, docAvailable);
      r == LimitContext(AssembledContext(fileName, language, imports, structure, code)) && |r| <= 2028
  {
  }

  // ===========================================================================
  // Cursor classification
  // ===========================================================================

  /** The text before the offset, clipped to the text. */
  function TextBefore(text: string, offset: nat): string
  {
    text[..Min(offset, |text|)]
  }

  /** A line isInMethod takes for a method signature. */
  predicate IsSignatureLine(trimmed: string)
  {
    !StartsWith(trimmed, "//") && (
      ((Contains(trimmed, "public ") || Contains(trimmed, "private ") || Contains(trimmed, "protected "))
        && Contains(trimmed, "("))
      || (StartsWith(trimmed, "def ") && Contains(trimmed, "("))
      || (Contains(trimmed, "function ") && Contains(trimmed, "(")))
  }

  /** '{' count minus '}' count. */
  function NetBraces(s: string): int
    decreases |s|
  {
    if s == [] then 0
    else NetBraces(s[..|s| - 1]) + (if s[|s| - 1] == '{' then 1 else if s[|s| - 1] == '}' then -1 else 0)
  }

  function NetBracesOfLines(ls: seq<string>): int
    decreases |ls|
  {
    if ls == [] then 0 else NetBracesOfLines(ls[..|ls| - 1]) + NetBraces(ls[|ls| - 1])
  }

  lemma {:induction false} NetBracesAppend(a: string, b: string)
    ensures NetBraces(a + b) == NetBraces(a) + NetBraces(b)
    decreases |b|
  {
    if b != [] {
      assert (a + b)[..|a + b| - 1] == a + b[..|b| - 1];
      NetBracesAppend(a, b[..|b| - 1]);
    } else {
      assert a + b == a;
    }
  }

  lemma {:induction false} NetBracesOfJoin(ls: seq<string>)
    ensures NetBraces(Join(ls, "\n")) == NetBracesOfLines(ls)
    decreases |ls|
  {
    if |ls| == 1 {
      assert ls[..0] == [];
    } else if |ls| > 1 {
      var p := ls[..|ls| - 1];
      NetBracesOfJoin(p);
      NetBracesAppend(Join(p, "\n") + "\n", ls[|ls| - 1]);
      NetBracesAppend(Join(p, "\n"), "\n");
      assert NetBraces("\n") == 0 by { assert "\n"[..0] == []; }
    }
  }

  lemma {:induction false} NetBracesOfEmptyTail(ls: seq<string>, k: nat)
    requires k <= |ls| && forall i :: k <= i < |ls| ==> ls[i] == []
    ensures NetBracesOfLines(ls) == NetBracesOfLines(ls[..k])
    decreases |ls|
  {
    if k == |ls| {
      assert ls[..k] == ls;
    } else {
      var p := ls[..|ls| - 1];
      assert p[..k] == ls[..k];
      NetBracesOfEmptyTail(p, k);
    }
  }

  lemma NetBracesSnoc(s: string, j: nat)
    requires j < |s|
    ensures NetBraces(s[..j + 1]) == NetBraces(s[..j]) + (if s[j] == '{' then 1 else if s[j] == '}' then -1 else 0)
  {
    assert s[..j + 1][..j] == s[..j];
  }

  lemma NetBracesOfLinesSnoc(ls: seq<string>, i: nat)
    requires i < |ls|
    ensures NetBracesOfLines(ls[..i + 1]) == NetBracesOfLines(ls[..i]) + NetBraces(ls[i])
  {
    assert ls[..i + 1][..i] == ls[..i];
  }

  /** Counting braces line by line over split("\n") counts the braces of the whole text. */
  lemma NetBracesOfSplit(s: string)
    ensures NetBracesOfLines(JavaSplit(s)) == NetBraces(s)
  {
    JavaSplitIsLinesPrefix(s);
    NetBracesOfEmptyTail(Lines(s), |JavaSplit(s)|);
    NetBracesOfJoin(Lines(s));
    JoinLines(s);
  }

  /** One of the first n lines has the shape of a signature. */
  predicate SignatureBefore(lines: seq<string>, n: nat)
    requires n <= |lines|
  {
    exists k :: 0 <= k < n && IsSignatureLine(Trim(lines[k]))
  }

  /** Whether one of the first n entries of ts satisfies test, as a flag kept entry by entry. */
  function AnyAmong(ts: seq<string>, n: nat, test: string -> bool): bool
    requires n <= |ts|
  {
    n > 0 && (AnyAmong(ts, n - 1, test) || test(ts[n - 1]))
  }

  lemma {:induction false} AnyAmongIff(ts: seq<string>, n: nat, test: string -> bool)
    requires n <= |ts|
    ensures AnyAmong(ts, n, test) <==> exists k :: 0 <= k < n && test(ts[k])
  {
    if n > 0 {
      AnyAmongIff(ts, n - 1, test);
      if !test(ts[n - 1]) && exists k :: 0 <= k < n && test(ts[k]) {
        var k :| 0 <= k < n && test(ts[k]);
        assert k < n - 1;
      }
    }
  }

  /** The flag isInMethod keeps after n lines: false, then true from the first signature line on. */
  function SignatureSeen(lines: seq<string>, n: nat): bool
    requires n <= |lines|
  {
    AnyAmong(TrimmedLines(lines), n, IsSignatureLine)
  }

  /** The flag is set exactly when one of the lines scanned so far is a signature. */
  lemma SignatureSeenIff(lines: seq<string>, n: nat)
    requires n <= |lines|
    ensures SignatureSeen(lines, n) <==> SignatureBefore(lines, n)
  {
    var ts := TrimmedLines(lines);
    AnyAmongIff(ts, n, IsSignatureLine);
    if SignatureSeen(lines, n) {
      var k :| 0 <= k < n && IsSignatureLine(ts[k]);
      assert IsSignatureLine(Trim(lines[k]));
    }
    if SignatureBefore(lines, n) {
      var k :| 0 <= k < n && IsSignatureLine(Trim(lines[k]));
      assert IsSignatureLine(ts[k]);
    }
  }

  /** One pass of the outer loop of isInMethod: the signature test, then the brace count of the line. */
  method ScanLine(line: string, found: bool, openBraces: int) returns (found': bool, r: int)
    ensures found' == (found || IsSignatureLine(Trim(line)))
    ensures r == openBraces + NetBraces(line)
  {
    found' := found;
    var trimmed := Trim(line);
    if IsSignatureLine(trimmed) {
      found' := true;
    }
    r := openBraces;
    var j := 0;
    while j < |line|
      invariant 0 <= j <= |line|
      invariant r == openBraces + NetBraces(line[..j])
    {
      NetBracesSnoc(line, j);
      if line[j] == '{' {
        r := r + 1;
      } else if line[j] == '}' {
        r := r - 1;
      }
      j := j + 1;
    }
    assert line[..j] == line;
  }

  /** isInMethod: a signature-shaped line before the cursor and more '{' than '}' before it. */
  method IsInMethod(text: string, offset: nat) returns (inMethod: bool)
    ensures var before := TextBefore(text, offset); var lines := JavaSplit(before);
      inMethod <==> SignatureBefore(lines, |lines|) && NetBraces(before) > 0
  {
    var textBefore := TextBefore(text, offset);
    var openBraces := 0;
    var foundMethodSignature := false;
    var lines := JavaSplit(textBefore);
    var i := 0;
    while i < |lines|
      invariant 0 <= i <= |lines|
      invariant foundMethodSignature == SignatureSeen(lines, i)
      invariant openBraces == NetBracesOfLines(lines[..i])
    {
      foundMethodSignature, openBraces := ScanLine(lines[i], foundMethodSignature, openBraces);
      NetBracesOfLinesSnoc(lines, i);
      i := i + 1;
    }
    assert lines[..i] == lines;
    InMethodAnswer(textBefore, foundMethodSignature, openBraces);
    inMethod := foundMethodSignature && openBraces > 0;
  }

  /** After the last line the flag and the count answer for the whole text before the cursor. */
  lemma InMethodAnswer(before: string, found: bool, openBraces: int)
    requires found == SignatureSeen(JavaSplit(before), |JavaSplit(before)|)
    requires openBraces == NetBracesOfLines(JavaSplit(before))
    ensures var lines := JavaSplit(before);
      (found && openBraces > 0) <==> SignatureBefore(lines, |lines|) && NetBraces(before) > 0
  {
    var lines := JavaSplit(before);
    SignatureSeenIff(lines, |lines|);
    NetBracesOfSplit(before);
  }

  /** isInClass. */
  predicate IsInClass(text: string, offset: nat)
  {
    var textBefore := TextBefore(text, offset);
    Contains(textBefore, "class ")
    && !StartsWith(textBefore[LastIndexOf(textBefore, "class ")..], "// class")
  }

  /** The second test of isInClass never fails: the suffix found by lastIndexOf starts with "class ". */
  lemma IsInClassIff(text: string, offset: nat)
    ensures IsInClass(text, offset) <==> Contains(TextBefore(text, offset), "class ")
  {
    var b := TextBefore(text, offset);
    if Contains(b, "class ") {
      ContainsIff(b, "class ");
      var k :| MatchesAt(b, "class ", k);
      var j := LastIndexOf(b, "class ");
      assert j != -1;
      assert b[j..][0] == 'c';
    }
  }

  /** CompletionContext. */
  datatype CompletionContext = Comment | FunctionDefinition | ClassDefinition | ImportStatement | BlockStart | GeneralCode

  /** determineCompletionContext, with the comment test's answer passed in. */
  function DetermineCompletionContext(currentLine: string, inComment: bool): CompletionContext
  {
    var trimmed := Trim(currentLine);
    if inComment then Comment
    else if Contains(trimmed, "import ") || Contains(trimmed, "from ") then ImportStatement
    else if Contains(trimmed, "class ") then ClassDefinition
    else if Contains(trimmed, "def ") || Contains(trimmed, "function ")
            || (Contains(trimmed, "(") && (Contains(trimmed, "public ") || Contains(trimmed, "private "))) then FunctionDefinition
    else if EndsWith(trimmed, ":") || EndsWith(trimmed, "{") || EndsWith(trimmed, "(") then BlockStart
    else GeneralCode
  }

  /**
   * The classification is a first-match cascade: each kind is chosen exactly
   * when its own test passes and every earlier test fails.
   */
  lemma CompletionContextCascade(currentLine: string, inComment: bool)
    ensures var t := Trim(currentLine); var r := DetermineCompletionContext(currentLine, inComment);
      var imp := Contains(t, "import ") || Contains(t, "from ");
      var cls := Contains(t, "class ");
      var fun := Contains(t, "def ") || Contains(t, "function ")
                 || (Contains(t, "(") && (Contains(t, "public ") || Contains(t, "private ")));
      var blk := EndsWith(t, ":") || EndsWith(t, "{") || EndsWith(t, "(");
      && (r == Comment <==> inComment)
      && (r == ImportStatement <==> !inComment && imp)
      && (r == ClassDefinition <==> !inComment && !imp && cls)
      && (r == FunctionDefinition <==> !inComment && !imp && !cls && fun)
      && (r == BlockStart <==> !inComment && !imp && !cls && !fun && blk)
      && (r == GeneralCode <==> !inComment && !imp && !cls && !fun && !blk)
  {
  }

  /** getCurrentLineText: the cursor's line, or "" without a document. */
  function CurrentLineText(text: string, offset: nat, docAvailable: bool): string
    requires offset <= |text|
  {
    if !docAvailable then ""
    else
      CursorOnItsLine(text, offset);
      LineText(text, LineNumber(text, offset))
  }

  predicate IsCommentNode(node: PsiNode)
  {
    node.isPsiComment || Contains(ToLowerAscii(node.typeName), "comment")
  }

  /** isInComment: some element up the chain is a comment; if the walk fails, the trimmed line opens one. */
  method IsInComment(text: string, offset: nat, psi: PsiView, docAvailable: bool) returns (inComment: bool)
    requires offset <= |text|
    ensures psi.Ancestors? ==> (inComment <==> exists k :: 0 <= k < |psi.chain| && IsCommentNode(psi.chain[k]))
    ensures psi.PsiFailure? ==>
      var line := Trim(CurrentLineText(text, offset, docAvailable));
      inComment <==> StartsWith(line, "//") || StartsWith(line, "/*") || StartsWith(line, "#")
  {
    match psi {
      case PsiFailure =>
        var line := Trim(CurrentLineText(text, offset, docAvailable));
        return StartsWith(line, "//") || StartsWith(line, "/*") || StartsWith(line, "#");
      case Ancestors(chain) =>
        var i := 0;
        while i < |chain|
          invariant 0 <= i <= |chain|
          invariant forall k :: 0 <= k < i ==> !IsCommentNode(chain[k])
        {
          if IsCommentNode(chain[i]) {
            return true;
          }
          i := i + 1;
        }
        return false;
    }
  }

  /** CodeContext. */
  datatype CodeContext = CodeContext(inMethod: bool, inClass: bool, inComment: bool,
                                     completionContext: CompletionContext, currentLine: string)

  /** analyzeCurrentContext. */
  method AnalyzeCurrentContext(text: string, offset: nat, psi: PsiView, docAvailable: bool) returns (ctx: CodeContext)
    requires offset <= |text|
    ensures ctx.currentLine == CurrentLineText(text, offset, docAvailable)
    ensures ctx.inClass == IsInClass(text, offset)
    ensures ctx.completionContext == DetermineCompletionContext(ctx.currentLine, ctx.inComment)
    ensures psi.Ancestors? ==> (ctx.inComment <==> exists k :: 0 <= k < |psi.chain| && IsCommentNode(psi.chain[k]))
    ensures psi.PsiFailure? ==>
      var line := Trim(ctx.currentLine);
      ctx.inComment <==> StartsWith(line, "//") || StartsWith(line, "/*") || StartsWith(line, "#")
    ensures var before := TextBefore(text, offset); var lines := JavaSplit(before);
      ctx.inMethod <==> SignatureBefore(lines, |lines|) && NetBraces(before) > 0
  {
    var currentLine := CurrentLineText(text, offset, docAvailable);
    var inComment := IsInComment(text, offset, psi, docAvailable);
    var inMethod := IsInMethod(text, offset);
    var inClass := IsInClass(text, offset);
    var context := DetermineCompletionContext(currentLine, inComment);
    ctx := CodeContext(inMethod, inClass, inComment, context, currentLine);
  }
}
