/**
 * The parts of java.lang.String and java.util.stream the plugin relies on,
 * stated over Dafny strings (sequences of char).  Every operation here keeps
 * the Java library's own edge cases: trim() strips every character <= ' ',
 * split("\n") drops trailing empty strings, replace() scans left to right
 * without overlap, hashCode() wraps at 32 bits.
 */
module JavaText {

  /** A Java reference that may be null. */
  datatype Option<T> = None | Some(value: T)

  // ---------------------------------------------------------------------------
  // trim() and blankness
  // ---------------------------------------------------------------------------

  /** Leading characters <= ' ' removed; what is left starts with a visible character. */
  function TrimStart(s: string): (r: string)
    ensures |r| <= |s| && r == s[|s| - |r|..]
    ensures r != [] ==> r[0] > ' '
  {
    if s != [] && s[0] <= ' ' then TrimStart(s[1..]) else s
  }

  /** Everything TrimStart drops is <= ' '. */
  lemma {:induction false} TrimStartDropsBlanks(s: string)
    ensures forall k :: 0 <= k < |s| - |TrimStart(s)| ==> s[k] <= ' '
    decreases |s|
  {
    if s != [] && s[0] <= ' ' {
      TrimStartDropsBlanks(s[1..]);
      assert forall k :: 1 <= k < |s| ==> s[k] == s[1..][k - 1];
    }
  }

  /** Trailing characters <= ' ' removed; what is left ends with a visible character. */
  function TrimEnd(s: string): (r: string)
    ensures |r| <= |s| && r == s[..|r|]
    ensures r != [] ==> r[|r| - 1] > ' '
  {
    if s != [] && s[|s| - 1] <= ' ' then TrimEnd(s[..|s| - 1]) else s
  }

  /** Everything TrimEnd drops is <= ' '. */
  lemma {:induction false} TrimEndDropsBlanks(s: string)
    ensures forall k :: |TrimEnd(s)| <= k < |s| ==> s[k] <= ' '
    decreases |s|
  {
    if s != [] && s[|s| - 1] <= ' ' {
      TrimEndDropsBlanks(s[..|s| - 1]);
    }
  }

  /** String.trim(). */
  function Trim(s: string): string
  {
    TrimEnd(TrimStart(s))
  }

  /** A string that trim() leaves alone. */
  predicate IsTrimmed(s: string)
  {
    s == [] || (s[0] > ' ' && s[|s| - 1] > ' ')
  }

  /** s.trim().isEmpty(). */
  predicate IsBlank(s: string)
  {
    Trim(s) == []
  }

  /** trim() returns a slice of its input with nothing visible cut away at either end. */
  lemma TrimIsSlice(s: string)
    ensures IsTrimmed(Trim(s))
    ensures exists i, j :: 0 <= i <= j <= |s| && Trim(s) == s[i..j]
                           && (forall k :: 0 <= k < i ==> s[k] <= ' ')
                           && (forall k :: j <= k < |s| ==> s[k] <= ' ')
  {
    TrimStartDropsBlanks(s);
    TrimEndDropsBlanks(TrimStart(s));
    SuffixThenPrefix(s, TrimStart(s), Trim(s));
  }

  /**
   * A prefix b of a suffix a of s, each cut only at characters <= ' ', is a
   * slice of s with blanks around it; it is trimmed when a starts and b ends
   * with a visible character.
   */
  lemma SuffixThenPrefix(s: string, a: string, b: string)
    requires |a| <= |s| && a == s[|s| - |a|..] && forall k :: 0 <= k < |s| - |a| ==> s[k] <= ' '
    requires |b| <= |a| && b == a[..|b|] && forall k :: |b| <= k < |a| ==> a[k] <= ' '
    requires (a != [] ==> a[0] > ' ') && (b != [] ==> b[|b| - 1] > ' ')
    ensures IsTrimmed(b)
    ensures exists i, j :: 0 <= i <= j <= |s| && b == s[i..j]
                           && (forall k :: 0 <= k < i ==> s[k] <= ' ')
                           && (forall k :: j <= k < |s| ==> s[k] <= ' ')
  {
    var i := |s| - |a|;
    var j := i + |b|;
    if b != [] {
      assert b[0] == a[0];
    }
    forall k | j <= k < |s| ensures s[k] <= ' ' {
      assert s[k] == a[k - i];
    }
    assert b == s[i..j];
  }

  /** trim() leaves no blank character at either end. */
  lemma TrimmedResult(s: string)
    ensures IsTrimmed(Trim(s))
  {
    TrimIsSlice(s);
  }

  /** Trimming a trimmed string changes nothing, so trim() is idempotent. */
  lemma TrimOfTrimmed(s: string)
    requires IsTrimmed(s)
    ensures Trim(s) == s
  {
  }

  lemma TrimIdempotent(s: string)
    ensures Trim(Trim(s)) == Trim(s)
  {
    TrimIsSlice(s);
    TrimOfTrimmed(Trim(s));
  }

  /** Blank means: every character is <= ' '. */
  lemma BlankIff(s: string)
    ensures IsBlank(s) <==> forall k :: 0 <= k < |s| ==> s[k] <= ' '
  {
    TrimStartDropsBlanks(s);
    TrimEndDropsBlanks(TrimStart(s));
    if !IsBlank(s) {
      var a := TrimStart(s);
      assert a != [] && a[0] == s[|s| - |a|];
    }
  }

  // ---------------------------------------------------------------------------
  // Searching
  // ---------------------------------------------------------------------------

  /** t occurs in s starting at k. */
  predicate MatchesAt(s: string, t: string, k: int)
  {
    0 <= k && k + |t| <= |s| && s[k..k + |t|] == t
  }

  /** s.startsWith(t). */
  predicate StartsWith(s: string, t: string)
  {
    |t| <= |s| && s[..|t|] == t
  }

  /** s.endsWith(t). */
  predicate EndsWith(s: string, t: string)
  {
    |t| <= |s| && s[|s| - |t|..] == t
  }

  /** s.indexOf(t, from) for a non-empty t: the first match at or after from, or -1. */
  function IndexOfFrom(s: string, t: string, from: nat): (r: int)
    requires |t| > 0
    ensures r == -1 || (from <= r && MatchesAt(s, t, r))
    ensures r == -1 ==> forall k :: from <= k ==> !MatchesAt(s, t, k)
    ensures r != -1 ==> forall k :: from <= k < r ==> !MatchesAt(s, t, k)
    decreases |s| - from
  {
    if from + |t| > |s| then -1
    else if s[from..from + |t|] == t then from
    else IndexOfFrom(s, t, from + 1)
  }

  /** s.indexOf(t). */
  function IndexOf(s: string, t: string): int
    requires |t| > 0
  {
    IndexOfFrom(s, t, 0)
  }

  /** s.contains(t). */
  predicate Contains(s: string, t: string)
    requires |t| > 0
  {
    IndexOf(s, t) >= 0
  }

  lemma ContainsIff(s: string, t: string)
    requires |t| > 0
    ensures Contains(s, t) <==> exists k :: MatchesAt(s, t, k)
  {
  }

  /** s.lastIndexOf(t) restricted to matches starting below bound, or -1. */
  function LastIndexOfBelow(s: string, t: string, bound: nat): (r: int)
    requires |t| > 0
    ensures r == -1 || (r < bound && MatchesAt(s, t, r))
    ensures r == -1 ==> forall k :: 0 <= k < bound ==> !MatchesAt(s, t, k)
    ensures forall k :: r < k < bound ==> !MatchesAt(s, t, k)
  {
    if bound == 0 then -1
    else if MatchesAt(s, t, bound - 1) then bound - 1
    else LastIndexOfBelow(s, t, bound - 1)
  }

  /** s.lastIndexOf(t). */
  function LastIndexOf(s: string, t: string): int
    requires |t| > 0
  {
    LastIndexOfBelow(s, t, |s| + 1)
  }

  // ---------------------------------------------------------------------------
  // replace(CharSequence, CharSequence)
  // ---------------------------------------------------------------------------

  /**
   * s.replace(t, r) for a non-empty target: every occurrence of t, found left
   * to right without overlap, becomes r.
   */
  function Replace(s: string, t: string, r: string): string
    requires |t| > 0
    decreases |s|
  {
    if |s| < |t| then s
    else if s[..|t|] == t then r + Replace(s[|t|..], t, r)
    else [s[0]] + Replace(s[1..], t, r)
  }

  /** A one-character target is replaced character by character, so the replacement distributes over +. */
  lemma {:induction false} ReplaceCharAppend(a: string, b: string, c: char, r: string)
    ensures Replace(a + b, [c], r) == Replace(a, [c], r) + Replace(b, [c], r)
    decreases |a|
  {
    if a == [] {
      assert a + b == b;
    } else {
      assert (a + b)[1..] == a[1..] + b;
      assert (a + b)[..1] == a[..1];
      ReplaceCharAppend(a[1..], b, c, r);
    }
  }

  lemma ReplaceCharSingle(x: char, c: char, r: string)
    ensures Replace([x], [c], r) == if x == c then r else [x]
  {
    assert [x][1..] == [];
  }

  /** If the first character of s cannot start a match, it is copied. */
  lemma ReplaceKeepsHead(s: string, t: string, r: string)
    requires |t| > 0 && s != [] && s[0] != t[0]
    ensures Replace(s, t, r) == [s[0]] + Replace(s[1..], t, r)
  {
    if |s| < |t| {
      assert |s[1..]| < |t|;
    } else {
      assert s[..|t|][0] == s[0];
    }
  }

  /** A character that is in neither s nor r is not in the result. */
  lemma {:induction false} ReplaceAvoids(s: string, t: string, r: string, c: char)
    requires |t| > 0 && c !in s && c !in r
    ensures c !in Replace(s, t, r)
    decreases |s|
  {
    if |s| < |t| {
    } else if s[..|t|] == t {
      ReplaceAvoids(s[|t|..], t, r, c);
    } else {
      ReplaceAvoids(s[1..], t, r, c);
    }
  }

  /** A target holding a character that s lacks never matches: the text is unchanged. */
  lemma {:induction false} ReplaceAbsent(s: string, t: string, r: string, c: char)
    requires |t| > 0 && c in t && c !in s
    ensures Replace(s, t, r) == s
    decreases |s|
  {
    if |s| < |t| {
    } else {
      assert s[..|t|] != t by {
        var k :| 0 <= k < |t| && t[k] == c;
        assert s[..|t|][k] == s[k];
      }
      ReplaceAbsent(s[1..], t, r, c);
      assert [s[0]] + s[1..] == s;
    }
  }

  /** A target that never occurs leaves the text unchanged. */
  lemma {:induction false} ReplaceNoMatch(s: string, t: string, r: string)
    requires |t| > 0 && forall k :: !MatchesAt(s, t, k)
    ensures Replace(s, t, r) == s
    decreases |s|
  {
    if |s| >= |t| {
      assert !MatchesAt(s, t, 0);
      forall k ensures !MatchesAt(s[1..], t, k) {
        assert !MatchesAt(s, t, k + 1);
        if 0 <= k && k + |t| <= |s[1..]| {
          assert s[1..][k..k + |t|] == s[k + 1..k + 1 + |t|];
        }
      }
      ReplaceNoMatch(s[1..], t, r);
      assert [s[0]] + s[1..] == s;
    }
  }

  // ---------------------------------------------------------------------------
  // Lines: splitting at '\n'
  // ---------------------------------------------------------------------------

  /**
   * The pieces of s between '\n' characters, every piece kept (a text ending
   * in '\n' ends with an empty piece).  This is how a document is cut into lines.
   */
  function Lines(s: string): (r: seq<string>)
    ensures |r| >= 1
    ensures forall i :: 0 <= i < |r| ==> '\n' !in r[i]
    decreases |s|
  {
    if s == [] then [[]]
    else
      var L := Lines(s[..|s| - 1]);
      var c := s[|s| - 1];
      if c == '\n' then L + [[]]
      else L[..|L| - 1] + [L[|L| - 1] + [c]]
  }

  /** The pieces glued back together with "\n" between them. */
  function Join(ls: seq<string>, sep: string): string
    decreases |ls|
  {
    if ls == [] then []
    else if |ls| == 1 then ls[0]
    else Join(ls[..|ls| - 1], sep) + sep + ls[|ls| - 1]
  }

  /** Joining the lines with "\n" gives the text back. */
  lemma {:induction false} JoinLines(s: string)
    ensures Join(Lines(s), "\n") == s
    decreases |s|
  {
    if s != [] {
      var p := s[..|s| - 1];
      var L := Lines(p);
      JoinLines(p);
      var c := s[|s| - 1];
      assert s == p + [c];
      if c == '\n' {
        JoinNewLine(L);
      } else {
        JoinLastExtended(L, [c]);
      }
    }
  }

  /** Joining with one more, empty, line appends just the separator. */
  lemma JoinNewLine(L: seq<string>)
    requires |L| >= 1
    ensures Join(L + [[]], "\n") == Join(L, "\n") + "\n"
  {
    assert (L + [[]])[..|L|] == L;
  }

  /** Extending the last piece extends the joined text. */
  lemma JoinLastExtended(L: seq<string>, tail: string)
    requires |L| >= 1
    ensures Join(L[..|L| - 1] + [L[|L| - 1] + tail], "\n") == Join(L, "\n") + tail
  {
    var M := L[..|L| - 1] + [L[|L| - 1] + tail];
    if |L| > 1 {
      assert M[..|M| - 1] == L[..|L| - 1];
    }
  }

  /** Java's split("\n"): no separator gives [s]; otherwise trailing empty strings are dropped. */
  function JavaSplit(s: string): seq<string>
  {
    if '\n' !in s then [s] else DropTrailingEmpty(Lines(s))
  }

  function DropTrailingEmpty(ls: seq<string>): (r: seq<string>)
    ensures |r| <= |ls| && r == ls[..|r|]
    ensures r != [] ==> r[|r| - 1] != []
    ensures forall i :: |r| <= i < |ls| ==> ls[i] == []
  {
    if ls != [] && ls[|ls| - 1] == [] then DropTrailingEmpty(ls[..|ls| - 1]) else ls
  }

  /** The split pieces are the text's lines, in order, with only empty trailing lines missing. */
  lemma JavaSplitIsLinesPrefix(s: string)
    ensures var r := JavaSplit(s); var L := Lines(s);
      |r| <= |L| && r == L[..|r|] && forall i :: |r| <= i < |L| ==> L[i] == []
  {
    if '\n' !in s {
      LinesWithoutNewline(s);
    }
  }

  lemma {:induction false} LinesWithoutNewline(s: string)
    requires '\n' !in s
    ensures Lines(s) == [s]
    decreases |s|
  {
    if s != [] {
      var p := s[..|s| - 1];
      assert '\n' !in p by {
        forall k | 0 <= k < |p| ensures p[k] != '\n' { assert p[k] == s[k]; }
      }
      LinesWithoutNewline(p);
      assert p + [s[|s| - 1]] == s;
    }
  }

  // ---------------------------------------------------------------------------
  // Streams: distinct() and limit()
  // ---------------------------------------------------------------------------

  predicate NoDuplicates<T(==)>(s: seq<T>)
  {
    forall i, j :: 0 <= i < j < |s| ==> s[i] != s[j]
  }

  /** a can be obtained from b by deleting elements. */
  ghost predicate IsSubsequence<T>(a: seq<T>, b: seq<T>)
    decreases |b|
  {
    if a == [] then true
    else if b == [] then false
    else (a[|a| - 1] == b[|b| - 1] && IsSubsequence(a[..|a| - 1], b[..|b| - 1]))
         || IsSubsequence(a, b[..|b| - 1])
  }

  /** stream().distinct(): first occurrences kept, in encounter order. */
  function Distinct(s: seq<string>): (r: seq<string>)
    ensures NoDuplicates(r)
    ensures forall x :: x in r <==> x in s
    ensures |r| <= |s|
    ensures IsSubsequence(r, s)
    decreases |s|
  {
    if s == [] then []
    else
      var d := Distinct(s[..|s| - 1]);
      if s[|s| - 1] in d then d else d + [s[|s| - 1]]
  }

  /** stream().limit(n). */
  function Limit<T>(s: seq<T>, n: nat): (r: seq<T>)
    ensures |r| == if |s| <= n then |s| else n
    ensures r == s[..|r|]
  {
    if |s| <= n then s else s[..n]
  }

  lemma {:induction false} SubsequenceOfLonger<T>(a: seq<T>, b: seq<T>, y: T)
    requires IsSubsequence(a, b)
    ensures IsSubsequence(a, b + [y])
  {
    if a != [] {
      assert (b + [y])[..|b|] == b;
    }
  }

  /** A prefix of a subsequence is a subsequence. */
  lemma {:induction false} SubsequencePrefix<T>(a: seq<T>, b: seq<T>, k: nat)
    requires IsSubsequence(a, b) && k <= |a|
    ensures IsSubsequence(a[..k], b)
    decreases |b|
  {
    if k == |a| {
      assert a[..k] == a;
    } else if k == 0 {
    } else {
      var b' := b[..|b| - 1];
      assert b == b' + [b[|b| - 1]];
      if a[|a| - 1] == b[|b| - 1] && IsSubsequence(a[..|a| - 1], b') {
        SubsequencePrefix(a[..|a| - 1], b', k);
        assert a[..|a| - 1][..k] == a[..k];
      } else {
        SubsequencePrefix(a, b', k);
      }
      SubsequenceOfLonger(a[..k], b', b[|b| - 1]);
    }
  }

  // ---------------------------------------------------------------------------
  // Decimal rendering: String.valueOf(int) and String.format("%3d")
  // ---------------------------------------------------------------------------

  /** The character of a decimal digit: '0' + d. */
  function DigitChar(d: nat): char
    requires d < 10
  {
    ('0' as int + d) as char
  }

  /** The decimal digits of n, most significant first, without leading zeros. */
  function Decimal(n: nat): (r: string)
    ensures |r| >= 1
    ensures forall k :: 0 <= k < |r| ==> '0' <= r[k] <= '9'
    decreases n
  {
    if n < 10 then [DigitChar(n)] else Decimal(n / 10) + [DigitChar(n % 10)]
  }

  /** Reads a string of decimal digits back. */
  function DecimalValue(s: string): nat
    requires forall k :: 0 <= k < |s| ==> '0' <= s[k] <= '9'
    decreases |s|
  {
    if s == [] then 0
    else 10 * DecimalValue(s[..|s| - 1]) + ((s[|s| - 1] as int) - ('0' as int))
  }

  lemma {:induction false} DecimalRoundTrip(n: nat)
    ensures DecimalValue(Decimal(n)) == n
    decreases n
  {
    if n >= 10 {
      DecimalRoundTrip(n / 10);
      var s := Decimal(n);
      assert s[..|s| - 1] == Decimal(n / 10);
    }
  }

  /** String.valueOf(int). */
  function IntToString(i: int): string
  {
    if i < 0 then "-" + Decimal(-i) else Decimal(i)
  }

  /** Different numbers are rendered differently. */
  lemma IntToStringInjective(a: int, b: int)
    requires IntToString(a) == IntToString(b)
    ensures a == b
  {
    assert (a < 0) == (b < 0) by {
      SignOfRendering(a);
      SignOfRendering(b);
    }
    if a < 0 {
      assert Decimal(-a) == Decimal(-b) by {
        NegativeRendering(a);
        NegativeRendering(b);
      }
      DecimalInjective(-a, -b);
    } else {
      DecimalInjective(a, b);
    }
  }

  /** A rendering starts with '-' exactly when the number is negative. */
  lemma SignOfRendering(a: int)
    ensures |IntToString(a)| >= 1 && (IntToString(a)[0] == '-' <==> a < 0)
  {
    if a >= 0 {
      assert IntToString(a)[0] == Decimal(a)[0];
    }
  }

  lemma DecimalInjective(m: nat, n: nat)
    requires Decimal(m) == Decimal(n)
    ensures m == n
  {
    DecimalRoundTrip(m);
    DecimalRoundTrip(n);
  }

  lemma NegativeRendering(a: int)
    requires a < 0
    ensures IntToString(a)[0] == '-' && IntToString(a)[1..] == Decimal(-a)
  {
  }

  function Spaces(n: nat): (r: string)
    ensures |r| == n && forall k :: 0 <= k < n ==> r[k] == ' '
  {
    seq(n, _ => ' ')
  }

  /** String.format("%3d", n) for n >= 0: the decimal digits right-aligned in a field of width 3. */
  function Pad3(n: nat): string
  {
    var d := Decimal(n);
    if |d| < 3 then Spaces(3 - |d|) + d else d
  }

  /** "%3d" is at least three wide, exactly three below 1000, and ends with the digits of n. */
  lemma Pad3Shape(n: nat)
    ensures |Pad3(n)| == if |Decimal(n)| < 3 then 3 else |Decimal(n)|
    ensures EndsWith(Pad3(n), Decimal(n))
    ensures forall k :: 0 <= k < |Pad3(n)| - |Decimal(n)| ==> Pad3(n)[k] == ' '
    ensures n < 1000 ==> |Pad3(n)| == 3
  {
    if n < 1000 {
      DecimalLength(n);
    }
  }

  lemma {:induction false} DecimalLength(n: nat)
    ensures n < 1000 ==> |Decimal(n)| <= 3
    ensures n < 100 ==> |Decimal(n)| <= 2
    ensures n < 10 ==> |Decimal(n)| == 1
    decreases n
  {
    if n >= 10 { DecimalLength(n / 10); }
  }

  // ---------------------------------------------------------------------------
  // hashCode()
  // ---------------------------------------------------------------------------

  const TwoTo32: nat := 0x1_0000_0000
  const TwoTo31: nat := 0x8000_0000

  /** The hash polynomial s[0]*31^(n-1) + ... + s[n-1] over unbounded integers. */
  function HashPolynomial(s: string): nat
    decreases |s|
  {
    if s == [] then 0 else 31 * HashPolynomial(s[..|s| - 1]) + (s[|s| - 1] as nat)
  }

  /** Java's loop h = 31 * h + c in 32-bit arithmetic, read as an unsigned value. */
  function HashUnsigned(s: string): (h: nat)
    ensures h < TwoTo32
    decreases |s|
  {
    if s == [] then 0 else (31 * HashUnsigned(s[..|s| - 1]) + (s[|s| - 1] as nat)) % TwoTo32
  }

  /** The 32-bit pattern read as a two's-complement int. */
  function ToInt32(u: nat): (i: int)
    requires u < TwoTo32
    ensures -(TwoTo31 as int) <= i < TwoTo31
    ensures i % TwoTo32 == u
  {
    if u >= TwoTo31 then u - TwoTo32 else u
  }

  /** String.hashCode(). */
  function HashCode(s: string): int
  {
    ToInt32(HashUnsigned(s))
  }

  lemma MulModStep(x: nat, c: nat)
    ensures (31 * (x % TwoTo32) + c) % TwoTo32 == (31 * x + c) % TwoTo32
  {
    var q := x / TwoTo32;
    assert x == q * TwoTo32 + x % TwoTo32;
    assert 31 * x + c == (31 * q) * TwoTo32 + (31 * (x % TwoTo32) + c);
  }

  /** The wrapping loop computes the hash polynomial modulo 2^32. */
  lemma {:induction false} HashIsPolynomialMod(s: string)
    ensures HashUnsigned(s) == HashPolynomial(s) % TwoTo32
    decreases |s|
  {
    if s != [] {
      var p := s[..|s| - 1];
      HashIsPolynomialMod(p);
      MulModStep(HashPolynomial(p), s[|s| - 1] as nat);
    }
  }

  // ---------------------------------------------------------------------------
  // Case folding (ASCII letters)
  // ---------------------------------------------------------------------------

  function ToLowerChar(c: char): char
  {
    if 'A' <= c <= 'Z' then (c as int + 32) as char else c
  }

  function ToLowerAscii(s: string): (r: string)
    ensures |r| == |s| && forall k :: 0 <= k < |s| ==> r[k] == ToLowerChar(s[k])
  {
    seq(|s|, k requires 0 <= k < |s| => ToLowerChar(s[k]))
  }

  /** a.equalsIgnoreCase(b) with ASCII case folding. */
  predicate EqualsIgnoreCase(a: string, b: string)
  {
    ToLowerAscii(a) == ToLowerAscii(b)
  }
}
