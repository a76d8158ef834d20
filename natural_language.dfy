/**
 * `ParseNaturalLanguage::parse`: extracts the `object(output...` lines from
 * the single fenced `prolog` code block of a language-model response.
 *
 * The method `Parse` follows the source's line-by-line state machine; it is
 * proved equal to `ParseSpec`, which states the result in terms of where the
 * code block starts and ends.
 */
module NaturalLanguage {
  import opened Wrappers

  datatype ParseError = NoCodeBlockFound | MultipleCodeBlocksFound | UnrecognizedLines(count: nat)

  /** The parsed response: the extracted lines, untrimmed, in input order. */
  datatype ParseNaturalLanguage = ParseNaturalLanguage(lines: seq<string>)

  // ---------------------------------------------------------------------
  // String helpers: Rust's `split("\n")`, `trim`, `contains`, `starts_with`.
  // ---------------------------------------------------------------------

  /** Unicode's White_Space property, which `str::trim` strips. */
  predicate IsWhitespace(c: char)
  {
    var n := c as int;
    (0x09 <= n <= 0x0D) || n == 0x20 || n == 0x85 || n == 0xA0 || n == 0x1680
    || (0x2000 <= n <= 0x200A) || n == 0x2028 || n == 0x2029 || n == 0x202F
    || n == 0x205F || n == 0x3000
  }

  /** Drops leading whitespace: what is kept is a suffix that does not start with any. */
  function TrimStart(s: string): (r: string)
    ensures |r| <= |s| && r == s[|s| - |r|..]
    ensures r == [] || !IsWhitespace(r[0])
  {
    if s != [] && IsWhitespace(s[0]) then TrimStart(s[1..]) else s
  }

  /** What TrimStart drops is whitespace. */
  lemma {:induction false} TrimStartDropsWhitespace(s: string)
    ensures forall i :: 0 <= i < |s| - |TrimStart(s)| ==> IsWhitespace(s[i])
  {
    if s != [] && IsWhitespace(s[0]) {
      TrimStartDropsWhitespace(s[1..]);
      assert forall i :: 1 <= i < |s| ==> s[i] == s[1..][i - 1];
    }
  }

  /** Drops trailing whitespace: what is kept is a prefix that does not end with any. */
  function TrimEnd(s: string): (r: string)
    ensures |r| <= |s| && r == s[..|r|]
    ensures r == [] || !IsWhitespace(r[|r| - 1])
  {
    if s != [] && IsWhitespace(s[|s| - 1]) then TrimEnd(s[..|s| - 1]) else s
  }

  /** What TrimEnd drops is whitespace. */
  lemma {:induction false} TrimEndDropsWhitespace(s: string)
    ensures forall i :: |TrimEnd(s)| <= i < |s| ==> IsWhitespace(s[i])
  {
    if s != [] && IsWhitespace(s[|s| - 1]) {
      TrimEndDropsWhitespace(s[..|s| - 1]);
      assert forall i :: 0 <= i < |s| - 1 ==> s[i] == s[..|s| - 1][i];
    }
  }

  /** `str::trim`: the text between the leading and the trailing whitespace. */
  function Trim(s: string): (r: string)
    ensures r == [] || (!IsWhitespace(r[0]) && !IsWhitespace(r[|r| - 1]))
    ensures s == [] || (!IsWhitespace(s[0]) && !IsWhitespace(s[|s| - 1])) ==> r == s
  {
    var t := TrimStart(s);
    assert s == [] || !IsWhitespace(s[0]) ==> t == s;
    TrimEnd(t)
  }

  /** Every character of s[lo..hi] is whitespace. */
  predicate AllWhitespace(s: string, lo: nat, hi: nat)
    requires lo <= hi <= |s|
  {
    forall i :: lo <= i < hi ==> IsWhitespace(s[i])
  }

  /** Trim keeps the slice of s that starts where TrimStart's suffix starts. */
  lemma TrimIsSlice(s: string)
    ensures |s| - |TrimStart(s)| + |Trim(s)| <= |s|
    ensures Trim(s) == s[|s| - |TrimStart(s)|..|s| - |TrimStart(s)| + |Trim(s)|]
  {
    var t := TrimStart(s);
    var a := |s| - |t|;
    assert t == s[a..];
    assert Trim(s) == t[..|Trim(s)|];
  }

  /** Whitespace at the end of a suffix of s is whitespace at the end of s. */
  lemma AllWhitespaceOfSuffix(s: string, a: nat, k: nat)
    requires a <= |s| && k <= |s| - a && AllWhitespace(s[a..], k, |s| - a)
    ensures AllWhitespace(s, a + k, |s|)
  {
    forall i | a + k <= i < |s|
      ensures IsWhitespace(s[i])
    {
      assert s[i] == s[a..][i - a];
    }
  }

  /** What Trim cuts after the slice it keeps is whitespace. */
  lemma TrimCutsAfter(s: string)
    requires |s| - |TrimStart(s)| + |Trim(s)| <= |s|
    ensures AllWhitespace(s, |s| - |TrimStart(s)| + |Trim(s)|, |s|)
  {
    var t := TrimStart(s);
    TrimEndDropsWhitespace(t);
    assert AllWhitespace(t, |TrimEnd(t)|, |t|);
    AllWhitespaceOfSuffix(s, |s| - |t|, |TrimEnd(t)|);
  }

  /** The slice Trim keeps, and the whitespace it cuts before and after it. */
  lemma TrimBounds(s: string) returns (a: nat, b: nat)
    ensures a <= b <= |s| && Trim(s) == s[a..b]
    ensures AllWhitespace(s, 0, a) && AllWhitespace(s, b, |s|)
  {
    TrimStartDropsWhitespace(s);
    TrimIsSlice(s);
    TrimCutsAfter(s);
    a := |s| - |TrimStart(s)|;
    b := a + |Trim(s)|;
  }

  /** Trim keeps one slice of the text and drops only whitespace before and after it. */
  lemma TrimDropsWhitespace(s: string)
    ensures exists a: nat, b: nat :: a <= b <= |s| && Trim(s) == s[a..b]
              && AllWhitespace(s, 0, a) && AllWhitespace(s, b, |s|)
  {
    var a, b := TrimBounds(s);
  }

  /** `str::starts_with`: s begins with prefix, character by character. */
  function StartsWith(s: string, prefix: string): (r: bool)
    ensures r <==> |prefix| <= |s| && forall i :: 0 <= i < |prefix| ==> s[i] == prefix[i]
  {
    |prefix| <= |s| && s[..|prefix|] == prefix
  }

  /** The pattern occurs in s starting at index i. */
  predicate OccursAt(s: string, pattern: string, i: int)
  {
    0 <= i && i + |pattern| <= |s| && s[i..i + |pattern|] == pattern
  }

  /** `str::contains`: whether the pattern occurs in s. */
  function Contains(s: string, pattern: string): (r: bool)
    ensures r ==> |pattern| <= |s|
    ensures StartsWith(s, pattern) ==> r
    decreases |s|
  {
    if |s| < |pattern| then false
    else StartsWith(s, pattern) || Contains(s[1..], pattern)
  }

  /** Contains finds an occurrence exactly when there is one. */
  lemma {:induction false} ContainsOccurs(s: string, pattern: string)
    ensures Contains(s, pattern) <==> exists i :: OccursAt(s, pattern, i)
    decreases |s|
  {
    if |s| < |pattern| {
    } else if StartsWith(s, pattern) {
      assert OccursAt(s, pattern, 0);
    } else {
      ContainsOccurs(s[1..], pattern);
      if Contains(s[1..], pattern) {
        var i :| OccursAt(s[1..], pattern, i);
        assert s[i + 1..i + 1 + |pattern|] == s[1..][i..i + |pattern|];
        assert OccursAt(s, pattern, i + 1);
      }
      if i :| OccursAt(s, pattern, i) {
        assert i != 0;
        assert s[1..][i - 1..i - 1 + |pattern|] == s[i..i + |pattern|];
        assert OccursAt(s[1..], pattern, i - 1);
      }
    }
  }

  /** A pattern that starts with a character missing from s does not occur in s. */
  lemma NotContainsMissingChar(s: string, pattern: string)
    requires pattern != [] && pattern[0] !in s
    ensures !Contains(s, pattern)
  {
    ContainsOccurs(s, pattern);
  }

  /** `split("\n")`: the pieces between newlines; always at least one. */
  function SplitLines(s: string): (lines: seq<string>)
    ensures |lines| >= 1
    ensures forall i :: 0 <= i < |lines| ==> '\n' !in lines[i]
    decreases |s|
  {
    if s == [] then [""]
    else
      var rest := SplitLines(s[1..]);
      if s[0] == '\n' then [""] + rest
      else [[s[0]] + rest[0]] + rest[1..]
  }

  /** The pieces put back together with a newline between neighbours. */
  function JoinLines(lines: seq<string>): string
    requires |lines| >= 1
  {
    if |lines| == 1 then lines[0] else lines[0] + "\n" + JoinLines(lines[1..])
  }

  /** Splitting then joining gives the text back. */
  lemma {:induction false} JoinSplitLines(s: string)
    ensures JoinLines(SplitLines(s)) == s
    decreases |s|
  {
    if s != [] {
      var rest := SplitLines(s[1..]);
      JoinSplitLines(s[1..]);
      if s[0] == '\n' {
        assert SplitLines(s)[1..] == rest;
      } else {
        var lines := SplitLines(s);
        assert lines[1..] == rest[1..];
      }
    }
  }

  /** A newline-free text in front of t joins the first piece of t. */
  lemma {:induction false} SplitLinesPrefix(x: string, t: string)
    requires '\n' !in x
    ensures SplitLines(x + t) == [x + SplitLines(t)[0]] + SplitLines(t)[1..]
    decreases |x|
  {
    if x != [] {
      assert (x + t)[1..] == x[1..] + t;
      SplitLinesPrefix(x[1..], t);
      assert [x[0]] + (x[1..] + SplitLines(t)[0]) == x + SplitLines(t)[0];
    } else {
      var lines := SplitLines(t);
      assert x + t == t;
      assert x + lines[0] == lines[0];
      assert [lines[0]] + lines[1..] == lines;
    }
  }

  /** Joining newline-free pieces then splitting gives the pieces back. */
  lemma {:induction false} SplitJoinLines(lines: seq<string>)
    requires |lines| >= 1
    requires forall i :: 0 <= i < |lines| ==> '\n' !in lines[i]
    ensures SplitLines(JoinLines(lines)) == lines
  {
    if |lines| == 1 {
      SplitLinesPrefix(lines[0], "");
      assert lines[0] + "" == lines[0];
    } else {
      var rest := lines[1..];
      SplitJoinLines(rest);
      var t := "\n" + JoinLines(rest);
      assert t[1..] == JoinLines(rest);
      assert SplitLines(t) == [""] + rest;
      SplitLinesPrefix(lines[0], t);
      assert lines[0] + "\n" + JoinLines(rest) == lines[0] + t;
      assert lines[0] + "" == lines[0];
      assert [lines[0]] + rest == lines;
    }
  }

  // ---------------------------------------------------------------------
  // How one line is classified, in the order `parse` tests it.
  // ---------------------------------------------------------------------

  const PrologFence: string := "```prolog"
  const Fence: string := "```"

  datatype LineKind =
    | PrologFenceLine   // opens a prolog code block
    | ClosingFenceLine  // closes a code block
    | IgnoredLine       // blank, a `%` comment or an `object(input` line
    | OutputLine        // an `object(output` line: extracted
    | UnrecognizedLine  // anything else

  /** The kind of a line, told from its trimmed text in the order `parse` tests it. */
  function Classify(line: string): (k: LineKind)
    ensures k == PrologFenceLine <==> Contains(Trim(line), PrologFence)
    ensures k == ClosingFenceLine ==> Trim(line) == Fence
    ensures k == OutputLine ==> StartsWith(Trim(line), "object(output")
    ensures k == UnrecognizedLine ==> Trim(line) != [] && !StartsWith(Trim(line), "object(output")
  {
    var t := Trim(line);
    if Contains(t, PrologFence) then PrologFenceLine
    else if t == Fence then ClosingFenceLine
    else if t == [] || StartsWith(t, "%") || StartsWith(t, "object(input") then IgnoredLine
    else if StartsWith(t, "object(output") then OutputLine
    else UnrecognizedLine
  }

  /** The kind of a line, told from its trimmed text by the tests `parse` makes. */
  lemma ClassifyTrimmed(line: string, t: string)
    requires t == Trim(line)
    ensures Contains(t, PrologFence) <==> Classify(line) == PrologFenceLine
    ensures !Contains(t, PrologFence) ==> (t == Fence <==> Classify(line) == ClosingFenceLine)
    ensures !Contains(t, PrologFence) && t != Fence ==>
              (t == [] || StartsWith(t, "%") || StartsWith(t, "object(input") <==> Classify(line) == IgnoredLine)
    ensures !Contains(t, PrologFence) && t != Fence && Classify(line) != IgnoredLine ==>
              (StartsWith(t, "object(output") <==> Classify(line) == OutputLine)
  {
  }

  /** The kind of every line, in order. */
  function Classification(lines: seq<string>): (kinds: seq<LineKind>)
    ensures |kinds| == |lines|
  {
    if lines == [] then []
    else Classification(lines[..|lines| - 1]) + [Classify(lines[|lines| - 1])]
  }

  /** Line i's entry in the classification is its kind. */
  lemma {:induction false} ClassificationAt(lines: seq<string>, i: nat)
    requires i < |lines|
    ensures Classification(lines)[i] == Classify(lines[i])
  {
    if i < |lines| - 1 {
      ClassificationAt(lines[..|lines| - 1], i);
    }
  }

  /** An extracted line is one whose trimmed text starts with `object(output`. */
  lemma OutputLineStartsWithOutputObject(line: string)
    requires Classify(line) == OutputLine
    ensures StartsWith(Trim(line), "object(output")
  {
  }

  /**
   * An unrecognized line is a non-blank trimmed line that is not a fence and
   * starts with none of `%`, `object(input`, `object(output`.
   */
  lemma UnrecognizedLineCharacterized(line: string)
    ensures Classify(line) == UnrecognizedLine <==>
              var t := Trim(line);
              && !Contains(t, PrologFence) && t != Fence && t != [] && !StartsWith(t, "%")
              && !StartsWith(t, "object(input") && !StartsWith(t, "object(output")
  {
  }

  // ---------------------------------------------------------------------
  // The result, stated over where the block is.
  // ---------------------------------------------------------------------

  /** The number of prolog fences among the first n lines. */
  function CountPrologFences(kinds: seq<LineKind>, n: nat): nat
    requires n <= |kinds|
  {
    if n == 0 then 0
    else CountPrologFences(kinds, n - 1) + (if kinds[n - 1] == PrologFenceLine then 1 else 0)
  }

  /** The index of the first prolog fence among the first n lines. */
  function FirstPrologFence(kinds: seq<LineKind>, n: nat): (f: nat)
    requires n <= |kinds| && CountPrologFences(kinds, n) >= 1
    ensures f < n
  {
    if CountPrologFences(kinds, n - 1) >= 1 then FirstPrologFence(kinds, n - 1) else n - 1
  }

  /** The count is zero exactly when none of the first n lines opens a block. */
  lemma {:induction false} NoPrologFence(kinds: seq<LineKind>, n: nat)
    requires n <= |kinds|
    ensures CountPrologFences(kinds, n) == 0 <==> forall j :: 0 <= j < n ==> kinds[j] != PrologFenceLine
  {
    if n > 0 {
      NoPrologFence(kinds, n - 1);
    }
  }

  /** The count is at least two exactly when two of the first n lines open a block. */
  lemma {:induction false} TwoPrologFences(kinds: seq<LineKind>, n: nat)
    requires n <= |kinds|
    ensures CountPrologFences(kinds, n) >= 2 <==>
              exists j, k :: 0 <= j < k < n && kinds[j] == PrologFenceLine && kinds[k] == PrologFenceLine
  {
    if n > 0 {
      TwoPrologFences(kinds, n - 1);
      NoPrologFence(kinds, n - 1);
      if CountPrologFences(kinds, n) >= 2 && CountPrologFences(kinds, n - 1) < 2 {
        var j :| 0 <= j < n - 1 && kinds[j] == PrologFenceLine;
        assert kinds[n - 1] == PrologFenceLine;
      }
    }
  }

  /** FirstPrologFence is a prolog fence and no line before it is one. */
  lemma {:induction false} FirstPrologFenceIsFirst(kinds: seq<LineKind>, n: nat)
    requires n <= |kinds| && CountPrologFences(kinds, n) >= 1
    ensures kinds[FirstPrologFence(kinds, n)] == PrologFenceLine
    ensures forall j :: 0 <= j < FirstPrologFence(kinds, n) ==> kinds[j] != PrologFenceLine
  {
    if CountPrologFences(kinds, n - 1) >= 1 {
      FirstPrologFenceIsFirst(kinds, n - 1);
    } else {
      NoPrologFence(kinds, n - 1);
    }
  }

  /** The index of the first closing fence at or after start, or the number of lines if there is none. */
  function BlockEnd(kinds: seq<LineKind>, start: nat): (e: nat)
    requires start <= |kinds|
    ensures start <= e <= |kinds|
    ensures forall j :: start <= j < e ==> kinds[j] != ClosingFenceLine
    ensures e < |kinds| ==> kinds[e] == ClosingFenceLine
    decreases |kinds| - start
  {
    if start == |kinds| then start
    else if kinds[start] == ClosingFenceLine then start
    else BlockEnd(kinds, start + 1)
  }

  /** The number of unrecognized lines with index in [lo, hi). */
  function CountUnrecognized(kinds: seq<LineKind>, lo: nat, hi: nat): nat
    requires lo <= hi <= |kinds|
    decreases hi
  {
    if hi == lo then 0
    else CountUnrecognized(kinds, lo, hi - 1) + (if kinds[hi - 1] == UnrecognizedLine then 1 else 0)
  }

  /** The output lines with index in [lo, hi), untrimmed, in order. */
  function OutputLines(lines: seq<string>, kinds: seq<LineKind>, lo: nat, hi: nat): (r: seq<string>)
    requires |kinds| == |lines| && lo <= hi <= |kinds|
    ensures |r| <= hi - lo
    decreases hi
  {
    if hi == lo then []
    else OutputLines(lines, kinds, lo, hi - 1) + (if kinds[hi - 1] == OutputLine then [lines[hi - 1]] else [])
  }

  /** Every extracted line is an output line taken from the range. */
  lemma {:induction false} OutputLinesFromRange(lines: seq<string>, kinds: seq<LineKind>, lo: nat, hi: nat)
    requires |kinds| == |lines| && lo <= hi <= |kinds|
    ensures forall x :: x in OutputLines(lines, kinds, lo, hi) ==>
              exists j :: lo <= j < hi && lines[j] == x && kinds[j] == OutputLine
    decreases hi
  {
    if hi > lo {
      OutputLinesFromRange(lines, kinds, lo, hi - 1);
    }
  }

  /** The result of parsing, given each line's kind. */
  function ParseKinds(lines: seq<string>, kinds: seq<LineKind>): Result<ParseNaturalLanguage, ParseError>
    requires |kinds| == |lines|
  {
    var n := CountPrologFences(kinds, |kinds|);
    if n == 0 then Failure(NoCodeBlockFound)
    else if n >= 2 then Failure(MultipleCodeBlocksFound)
    else
      var f := FirstPrologFence(kinds, |kinds|);
      var e := BlockEnd(kinds, f + 1);
      var u := CountUnrecognized(kinds, f + 1, e);
      if u > 0 then Failure(UnrecognizedLines(u))
      else Success(ParseNaturalLanguage(OutputLines(lines, kinds, f + 1, e)))
  }

  /**
   * The result of parsing the given lines: no prolog block is an error, more
   * than one is an error, and otherwise the lines after the opening fence up
   * to the closing fence (or the end) are the block; any unrecognized line in
   * it is an error that reports how many there are, and otherwise the
   * block's output lines are the result.
   */
  function ParseSpec(lines: seq<string>): Result<ParseNaturalLanguage, ParseError>
  {
    ParseKinds(lines, Classification(lines))
  }

  function Min(a: nat, b: nat): nat
  {
    if a <= b then a else b
  }

  /**
   * The state of `parse` after the first i lines: the number of prolog fences
   * seen so far, and, once exactly one has been seen, whether the block is
   * still open and the counts and lines gathered from the part of it seen.
   */
  ghost predicate Scanned(lines: seq<string>, kinds: seq<LineKind>, i: nat, countCodeBlock: nat,
                          insideCodeBlock: bool, countUnrecognized: nat, linesWithPrefix: seq<string>)
    requires |kinds| == |lines| && i <= |lines|
  {
    && countCodeBlock == CountPrologFences(kinds, i)
    && (countCodeBlock == 0 ==> !insideCodeBlock && countUnrecognized == 0 && linesWithPrefix == [])
    && (countCodeBlock == 1 ==>
          var f := FirstPrologFence(kinds, i);
          var e := BlockEnd(kinds, f + 1);
          && insideCodeBlock == (i <= e)
          && countUnrecognized == CountUnrecognized(kinds, f + 1, Min(i, e))
          && linesWithPrefix == OutputLines(lines, kinds, f + 1, Min(i, e)))
  }

  /** A prolog fence line: the count goes up and the first one opens the block. */
  lemma ScanPrologFence(lines: seq<string>, kinds: seq<LineKind>, i: nat,
                        count: nat, inside: bool, unrec: nat, out: seq<string>)
    requires |kinds| == |lines| && i < |lines| && kinds[i] == PrologFenceLine
    requires Scanned(lines, kinds, i, count, inside, unrec, out)
    ensures Scanned(lines, kinds, i + 1, count + 1, if count == 0 then true else inside, unrec, out)
  {
  }

  /** Any other line while no block is open changes nothing. */
  lemma ScanOutsideBlock(lines: seq<string>, kinds: seq<LineKind>, i: nat, count: nat, unrec: nat, out: seq<string>)
    requires |kinds| == |lines| && i < |lines| && kinds[i] != PrologFenceLine
    requires Scanned(lines, kinds, i, count, false, unrec, out)
    ensures Scanned(lines, kinds, i + 1, count, false, unrec, out)
  {
  }

  /** The closing fence ends the block. */
  lemma ScanClosingFence(lines: seq<string>, kinds: seq<LineKind>, i: nat, count: nat, unrec: nat, out: seq<string>)
    requires |kinds| == |lines| && i < |lines| && kinds[i] == ClosingFenceLine
    requires Scanned(lines, kinds, i, count, true, unrec, out)
    ensures Scanned(lines, kinds, i + 1, count, false, unrec, out)
  {
  }

  /** A line inside the open block is counted if unrecognized and kept if an output line. */
  lemma ScanInsideBlock(lines: seq<string>, kinds: seq<LineKind>, i: nat, count: nat, unrec: nat, out: seq<string>)
    requires |kinds| == |lines| && i < |lines|
    requires kinds[i] != PrologFenceLine && kinds[i] != ClosingFenceLine
    requires Scanned(lines, kinds, i, count, true, unrec, out)
    ensures Scanned(lines, kinds, i + 1, count, true,
                    unrec + (if kinds[i] == UnrecognizedLine then 1 else 0),
                    out + (if kinds[i] == OutputLine then [lines[i]] else []))
  {
  }

  /** Once every line is scanned, the counters decide the result as ParseKinds does. */
  lemma ScanFinished(lines: seq<string>, kinds: seq<LineKind>, count: nat, inside: bool, unrec: nat, out: seq<string>)
    requires |kinds| == |lines|
    requires Scanned(lines, kinds, |lines|, count, inside, unrec, out)
    ensures ParseKinds(lines, kinds) ==
              if count == 0 then Failure(NoCodeBlockFound)
              else if count >= 2 then Failure(MultipleCodeBlocksFound)
              else if unrec > 0 then Failure(UnrecognizedLines(unrec))
              else Success(ParseNaturalLanguage(out))
  {
  }

  /** The variables `parse` updates as it goes through the lines. */
  datatype ScanState = ScanState(countCodeBlock: nat, insideCodeBlock: bool,
                                 countUnrecognized: nat, linesWithPrefix: seq<string>)

  /** The state after one more line of the given kind. */
  function ScanStep(s: ScanState, kind: LineKind, line: string): ScanState
  {
    if kind == PrologFenceLine then
      s.(countCodeBlock := s.countCodeBlock + 1,
         insideCodeBlock := if s.countCodeBlock == 0 then true else s.insideCodeBlock)
    else if !s.insideCodeBlock then s
    else if kind == ClosingFenceLine then s.(insideCodeBlock := false)
    else if kind == OutputLine then s.(linesWithPrefix := s.linesWithPrefix + [line])
    else if kind == UnrecognizedLine then s.(countUnrecognized := s.countUnrecognized + 1)
    else s
  }

  /** The state after the first n lines. */
  function ScanLines(lines: seq<string>, kinds: seq<LineKind>, n: nat): ScanState
    requires |kinds| == |lines| && n <= |lines|
  {
    if n == 0 then ScanState(0, false, 0, [])
    else ScanStep(ScanLines(lines, kinds, n - 1), kinds[n - 1], lines[n - 1])
  }

  /** The state after the first n lines is the one Scanned describes. */
  lemma {:induction false} ScanLinesScanned(lines: seq<string>, kinds: seq<LineKind>, n: nat)
    requires |kinds| == |lines| && n <= |lines|
    ensures var s := ScanLines(lines, kinds, n);
            Scanned(lines, kinds, n, s.countCodeBlock, s.insideCodeBlock, s.countUnrecognized, s.linesWithPrefix)
  {
    if n > 0 {
      var i := n - 1;
      ScanLinesScanned(lines, kinds, i);
      var s := ScanLines(lines, kinds, i);
      if kinds[i] == PrologFenceLine {
        ScanPrologFence(lines, kinds, i, s.countCodeBlock, s.insideCodeBlock, s.countUnrecognized, s.linesWithPrefix);
      } else if !s.insideCodeBlock {
        ScanOutsideBlock(lines, kinds, i, s.countCodeBlock, s.countUnrecognized, s.linesWithPrefix);
      } else if kinds[i] == ClosingFenceLine {
        ScanClosingFence(lines, kinds, i, s.countCodeBlock, s.countUnrecognized, s.linesWithPrefix);
      } else {
        ScanInsideBlock(lines, kinds, i, s.countCodeBlock, s.countUnrecognized, s.linesWithPrefix);
      }
    }
  }

  /**
   * One pass of the loop in `parse`: the `continue` chain that counts
   * fences, opens and closes the block, and inside it skips ignored lines,
   * keeps output lines and counts the rest.
   */
  method ScanLine(line: string, countCodeBlock: nat, insideCodeBlock: bool, countUnrecognized: nat,
                  linesWithPrefix: seq<string>)
    returns (countCodeBlock': nat, insideCodeBlock': bool, countUnrecognized': nat, linesWithPrefix': seq<string>)
    ensures ScanState(countCodeBlock', insideCodeBlock', countUnrecognized', linesWithPrefix') ==
            ScanStep(ScanState(countCodeBlock, insideCodeBlock, countUnrecognized, linesWithPrefix), Classify(line), line)
  {
    countCodeBlock', insideCodeBlock', countUnrecognized', linesWithPrefix' :=
      countCodeBlock, insideCodeBlock, countUnrecognized, linesWithPrefix;
    var trimmedLine := Trim(line);
    ClassifyTrimmed(line, trimmedLine);
    if Contains(trimmedLine, PrologFence) {
      if countCodeBlock == 0 {
        insideCodeBlock' := true;
      }
      countCodeBlock' := countCodeBlock + 1;
      return;
    }
    if !insideCodeBlock {
      return;
    }
    if trimmedLine == Fence {
      insideCodeBlock' := false;
      return;
    }
    if trimmedLine == [] {
      return;
    }
    if StartsWith(trimmedLine, "%") {
      return;
    }
    if StartsWith(trimmedLine, "object(input") {
      return;
    }
    if StartsWith(trimmedLine, "object(output") {
      linesWithPrefix' := linesWithPrefix + [line];
      return;
    }
    countUnrecognized' := countUnrecognized + 1;
  }

  /** `ParseNaturalLanguage::parse`. */
  method Parse(multilineText: string) returns (r: Result<ParseNaturalLanguage, ParseError>)
    ensures r == ParseSpec(SplitLines(multilineText))
  {
    var lines := SplitLines(multilineText);
    ghost var kinds := Classification(lines);
    var linesWithPrefix: seq<string> := [];
    var insideCodeBlock := false;
    var countUnrecognizedInsideCodeBlock: nat := 0;
    var countCodeBlock: nat := 0;
    for i := 0 to |lines|
      invariant ScanState(countCodeBlock, insideCodeBlock, countUnrecognizedInsideCodeBlock, linesWithPrefix)
                == ScanLines(lines, kinds, i)
    {
      ClassificationAt(lines, i);
      countCodeBlock, insideCodeBlock, countUnrecognizedInsideCodeBlock, linesWithPrefix :=
        ScanLine(lines[i], countCodeBlock, insideCodeBlock, countUnrecognizedInsideCodeBlock, linesWithPrefix);
    }
    ScanLinesScanned(lines, kinds, |lines|);
    ScanFinished(lines, kinds, countCodeBlock, insideCodeBlock, countUnrecognizedInsideCodeBlock, linesWithPrefix);
    if countCodeBlock == 0 {
      return Failure(NoCodeBlockFound);
    }
    if countCodeBlock >= 2 {
      return Failure(MultipleCodeBlocksFound);
    }
    if countUnrecognizedInsideCodeBlock > 0 {
      return Failure(UnrecognizedLines(countUnrecognizedInsideCodeBlock));
    }
    r := Success(ParseNaturalLanguage(linesWithPrefix));
  }

  // ---------------------------------------------------------------------
  // What the result says about the response.
  // ---------------------------------------------------------------------

  /** Line j's kind, for every line at once. */
  lemma ClassificationAll(lines: seq<string>)
    ensures forall j :: 0 <= j < |lines| ==> Classification(lines)[j] == Classify(lines[j])
  {
    forall j | 0 <= j < |lines| {
      ClassificationAt(lines, j);
    }
  }

  /** Without a line whose trimmed text contains "```prolog" the result is NoCodeBlockFound, and only then. */
  lemma NoCodeBlockFoundIff(lines: seq<string>)
    ensures ParseSpec(lines) == Failure(NoCodeBlockFound) <==>
              forall j :: 0 <= j < |lines| ==> !Contains(Trim(lines[j]), PrologFence)
  {
    var kinds := Classification(lines);
    ClassificationAll(lines);
    NoPrologFence(kinds, |kinds|);
    forall j | 0 <= j < |lines| {
      ClassifyTrimmed(lines[j], Trim(lines[j]));
    }
  }

  /** Two lines whose trimmed text contains "```prolog" make the result MultipleCodeBlocksFound, and only they. */
  lemma MultipleCodeBlocksFoundIff(lines: seq<string>)
    ensures ParseSpec(lines) == Failure(MultipleCodeBlocksFound) <==>
              exists j, k :: 0 <= j < k < |lines| && Contains(Trim(lines[j]), PrologFence)
                                                  && Contains(Trim(lines[k]), PrologFence)
  {
    var kinds := Classification(lines);
    ClassificationAll(lines);
    TwoPrologFences(kinds, |kinds|);
    forall j | 0 <= j < |lines| {
      ClassifyTrimmed(lines[j], Trim(lines[j]));
    }
  }

  /** Line j lies inside the single prolog block, or is the fence that closes it. */
  predicate WithinBlockKinds(kinds: seq<LineKind>, j: nat)
  {
    && CountPrologFences(kinds, |kinds|) == 1
    && var f := FirstPrologFence(kinds, |kinds|);
       f < j <= BlockEnd(kinds, f + 1)
  }

  predicate WithinBlock(lines: seq<string>, j: nat)
  {
    WithinBlockKinds(Classification(lines), j)
  }

  lemma {:induction false} CountPrologFencesUpdate(kinds: seq<LineKind>, j: nat, k: LineKind, n: nat)
    requires j < |kinds| && n <= |kinds| && (kinds[j] == PrologFenceLine <==> k == PrologFenceLine)
    ensures CountPrologFences(kinds[j := k], n) == CountPrologFences(kinds, n)
  {
    if n > 0 {
      CountPrologFencesUpdate(kinds, j, k, n - 1);
    }
  }

  lemma {:induction false} FirstPrologFenceUpdate(kinds: seq<LineKind>, j: nat, k: LineKind, n: nat)
    requires j < |kinds| && n <= |kinds| && (kinds[j] == PrologFenceLine <==> k == PrologFenceLine)
    requires CountPrologFences(kinds, n) >= 1
    ensures CountPrologFences(kinds[j := k], n) >= 1
    ensures FirstPrologFence(kinds[j := k], n) == FirstPrologFence(kinds, n)
  {
    CountPrologFencesUpdate(kinds, j, k, n);
    CountPrologFencesUpdate(kinds, j, k, n - 1);
    if CountPrologFences(kinds, n - 1) >= 1 {
      FirstPrologFenceUpdate(kinds, j, k, n - 1);
    }
  }

  lemma {:induction false} BlockEndUpdate(kinds: seq<LineKind>, j: nat, k: LineKind, start: nat)
    requires j < |kinds| && start <= |kinds| && (j < start || j > BlockEnd(kinds, start))
    ensures BlockEnd(kinds[j := k], start) == BlockEnd(kinds, start)
    decreases |kinds| - start
  {
    if start < |kinds| && kinds[start] != ClosingFenceLine {
      BlockEndUpdate(kinds, j, k, start + 1);
    }
  }

  lemma {:induction false} CountUnrecognizedUpdate(kinds: seq<LineKind>, j: nat, k: LineKind, lo: nat, hi: nat)
    requires j < |kinds| && lo <= hi <= |kinds| && (j < lo || j >= hi)
    ensures CountUnrecognized(kinds[j := k], lo, hi) == CountUnrecognized(kinds, lo, hi)
    decreases hi
  {
    if hi > lo {
      CountUnrecognizedUpdate(kinds, j, k, lo, hi - 1);
    }
  }

  lemma {:induction false} OutputLinesUpdate(lines: seq<string>, kinds: seq<LineKind>, j: nat, x: string, k: LineKind,
                                             lo: nat, hi: nat)
    requires |kinds| == |lines| && j < |kinds| && lo <= hi <= |kinds| && (j < lo || j >= hi)
    ensures OutputLines(lines[j := x], kinds[j := k], lo, hi) == OutputLines(lines, kinds, lo, hi)
    decreases hi
  {
    if hi > lo {
      OutputLinesUpdate(lines, kinds, j, x, k, lo, hi - 1);
    }
  }

  /** Replacing line j by x replaces its kind and nothing else. */
  lemma ClassificationUpdate(lines: seq<string>, j: nat, x: string)
    requires j < |lines|
    ensures Classification(lines[j := x]) == Classification(lines)[j := Classify(x)]
  {
    ClassificationAll(lines);
    ClassificationAll(lines[j := x]);
  }

  /** Changing the kind of a line outside the block, fences aside, leaves ParseKinds as it was. */
  lemma ParseKindsOutsideUpdate(lines: seq<string>, kinds: seq<LineKind>, j: nat, x: string, k: LineKind)
    requires |kinds| == |lines| && j < |kinds| && !WithinBlockKinds(kinds, j)
    requires kinds[j] != PrologFenceLine && k != PrologFenceLine
    ensures ParseKinds(lines[j := x], kinds[j := k]) == ParseKinds(lines, kinds)
  {
    var n := |kinds|;
    CountPrologFencesUpdate(kinds, j, k, n);
    if CountPrologFences(kinds, n) == 1 {
      FirstPrologFenceUpdate(kinds, j, k, n);
      var f := FirstPrologFence(kinds, n);
      FirstPrologFenceIsFirst(kinds, n);
      BlockEndUpdate(kinds, j, k, f + 1);
      var e := BlockEnd(kinds, f + 1);
      CountUnrecognizedUpdate(kinds, j, k, f + 1, e);
      OutputLinesUpdate(lines, kinds, j, x, k, f + 1, e);
    }
  }

  /**
   * Lines outside the prolog block are ignored: replacing a line that is not
   * within the block by any other text, neither of them a prolog fence,
   * leaves the result as it was.
   */
  lemma OutsideLineIgnored(lines: seq<string>, j: nat, x: string)
    requires j < |lines| && !WithinBlock(lines, j)
    requires !Contains(Trim(lines[j]), PrologFence) && !Contains(Trim(x), PrologFence)
    ensures ParseSpec(lines[j := x]) == ParseSpec(lines)
  {
    ClassificationUpdate(lines, j, x);
    ClassificationAt(lines, j);
    ClassifyTrimmed(lines[j], Trim(lines[j]));
    ClassifyTrimmed(x, Trim(x));
    ParseKindsOutsideUpdate(lines, Classification(lines), j, x, Classify(x));
  }

  /** The output lines of the range are exactly its lines of kind OutputLine. */
  lemma {:induction false} OutputLinesContains(lines: seq<string>, kinds: seq<LineKind>, lo: nat, hi: nat, j: nat)
    requires |kinds| == |lines| && lo <= j < hi <= |kinds| && kinds[j] == OutputLine
    ensures lines[j] in OutputLines(lines, kinds, lo, hi)
    decreases hi
  {
    if j < hi - 1 {
      OutputLinesContains(lines, kinds, lo, hi - 1, j);
    }
  }

  /** A line within the block is not a prolog fence. */
  lemma WithinBlockIsNoFence(kinds: seq<LineKind>, j: nat)
    requires j < |kinds| && WithinBlockKinds(kinds, j)
    ensures kinds[j] != PrologFenceLine
  {
    var n := |kinds|;
    FirstPrologFenceIsFirst(kinds, n);
    TwoPrologFences(kinds, n);
  }

  /** On success the result holds exactly the output lines within the block, in order. */
  lemma ParseKindsOutput(lines: seq<string>, kinds: seq<LineKind>, parsed: ParseNaturalLanguage)
    requires |kinds| == |lines| && ParseKinds(lines, kinds) == Success(parsed)
    ensures forall x :: x in parsed.lines ==>
              exists j :: 0 <= j < |lines| && WithinBlockKinds(kinds, j) && lines[j] == x && kinds[j] == OutputLine
    ensures forall j :: 0 <= j < |lines| && WithinBlockKinds(kinds, j) && kinds[j] == OutputLine
              ==> lines[j] in parsed.lines
  {
    var n := |kinds|;
    var f := FirstPrologFence(kinds, n);
    var e := BlockEnd(kinds, f + 1);
    OutputLinesFromRange(lines, kinds, f + 1, e);
    forall j | 0 <= j < |lines| && WithinBlockKinds(kinds, j) && kinds[j] == OutputLine
      ensures lines[j] in parsed.lines
    {
      OutputLinesContains(lines, kinds, f + 1, e, j);
    }
  }

  /** A line that is not a prolog fence and whose trimmed text starts with `object(output` is an output line. */
  lemma OutputPrefixClassifies(line: string)
    requires Classify(line) != PrologFenceLine && StartsWith(Trim(line), "object(output")
    ensures Classify(line) == OutputLine
  {
    var t := Trim(line);
    assert t[0] == "object(output"[0] && t[7] == "object(output"[7];
    assert !StartsWith(t, "object(input") by {
      assert "object(input"[7] == 'i';
    }
  }

  /**
   * On success the result holds exactly the lines within the block whose
   * trimmed text starts with `object(output`, as they were written.
   */
  lemma ParsedLinesAreOutputLines(lines: seq<string>, parsed: ParseNaturalLanguage)
    requires ParseSpec(lines) == Success(parsed)
    ensures forall x :: x in parsed.lines ==>
              StartsWith(Trim(x), "object(output") && exists j :: 0 <= j < |lines| && WithinBlock(lines, j) && lines[j] == x
    ensures forall j :: 0 <= j < |lines| && WithinBlock(lines, j) && StartsWith(Trim(lines[j]), "object(output")
              ==> lines[j] in parsed.lines
  {
    var kinds := Classification(lines);
    ParseKindsOutput(lines, kinds, parsed);
    forall x | x in parsed.lines
      ensures StartsWith(Trim(x), "object(output") && exists j :: 0 <= j < |lines| && WithinBlock(lines, j) && lines[j] == x
    {
      var j :| 0 <= j < |lines| && WithinBlockKinds(kinds, j) && lines[j] == x && kinds[j] == OutputLine;
      ClassificationAt(lines, j);
      OutputLineStartsWithOutputObject(x);
    }
    forall j | 0 <= j < |lines| && WithinBlock(lines, j) && StartsWith(Trim(lines[j]), "object(output")
      ensures lines[j] in parsed.lines
    {
      ClassificationAt(lines, j);
      WithinBlockIsNoFence(kinds, j);
      OutputPrefixClassifies(lines[j]);
    }
  }

  // ---------------------------------------------------------------------
  // The error messages.
  // ---------------------------------------------------------------------

  predicate IsDigit(c: char)
  {
    '0' <= c <= '9'
  }

  /** The decimal digits of n, most significant first, as `{}` formats a usize. */
  function NatToString(n: nat): (s: string)
    ensures |s| >= 1 && forall i :: 0 <= i < |s| ==> IsDigit(s[i])
    ensures |s| > 1 ==> s[0] != '0'
  {
    if n < 10 then [('0' as int + n) as char]
    else NatToString(n / 10) + [('0' as int + n % 10) as char]
  }

  function DigitValue(c: char): nat
    requires IsDigit(c)
  {
    c as int - '0' as int
  }

  /** The number a string of decimal digits stands for. */
  function DecimalValue(s: string): nat
    requires forall i :: 0 <= i < |s| ==> IsDigit(s[i])
  {
    if s == [] then 0
    else DecimalValue(s[..|s| - 1]) * 10 + DigitValue(s[|s| - 1])
  }

  /** NatToString writes n in a way that reads back as n. */
  lemma {:induction false} NatToStringReadsBack(n: nat)
    ensures DecimalValue(NatToString(n)) == n
  {
    if n >= 10 {
      NatToStringReadsBack(n / 10);
      var s := NatToString(n);
      assert s[..|s| - 1] == NatToString(n / 10);
    }
  }

  const UnrecognizedLinesText: string := " unrecognized lines inside the code block"

  /** The text of the error `parse` reports. */
  function ErrorMessage(e: ParseError): (m: string)
    ensures e.UnrecognizedLines? <==> |m| > |UnrecognizedLinesText|
    ensures e.UnrecognizedLines? ==>
              && m[|m| - |UnrecognizedLinesText|..] == UnrecognizedLinesText
              && (|m| - |UnrecognizedLinesText| > 1 ==> m[0] != '0')
              && (forall i :: 0 <= i < |m| - |UnrecognizedLinesText| ==> IsDigit(m[i]))
              && DecimalValue(m[..|m| - |UnrecognizedLinesText|]) == e.count
  {
    match e
    case NoCodeBlockFound => "No code block found"
    case MultipleCodeBlocksFound => "Multiple code blocks found"
    case UnrecognizedLines(count) =>
      var digits := NatToString(count);
      NatToStringReadsBack(count);
      assert (digits + UnrecognizedLinesText)[..|digits|] == digits;
      digits + UnrecognizedLinesText
  }

  /** Different errors are reported with different messages. */
  lemma ErrorMessageInjective(e1: ParseError, e2: ParseError)
    ensures ErrorMessage(e1) == ErrorMessage(e2) ==> e1 == e2
  {
    if ErrorMessage(e1) == ErrorMessage(e2) && !e1.UnrecognizedLines? && !e2.UnrecognizedLines? {
      assert |ErrorMessage(e1)| == |ErrorMessage(e2)|;
    }
  }

  // ---------------------------------------------------------------------
  // Worked examples.
  // ---------------------------------------------------------------------

  /** A character missing from a line is missing from its trimmed text. */
  lemma TrimKeepsMissingChar(s: string, c: char)
    requires c !in s
    ensures c !in Trim(s)
  {
    var t := TrimStart(s);
    var r := TrimEnd(t);
    assert forall i :: 0 <= i < |r| ==> r[i] == s[|s| - |t| + i];
  }

  /** A line without a backtick neither opens nor closes a block. */
  lemma NoBacktickIsNoFence(line: string)
    requires '`' !in line
    ensures Classify(line) != PrologFenceLine && Classify(line) != ClosingFenceLine
  {
    TrimKeepsMissingChar(line, '`');
    NotContainsMissingChar(Trim(line), PrologFence);
    assert Fence[0] == '`';
  }

  lemma NoBacktickLines(lines: seq<string>)
    requires forall j :: 0 <= j < |lines| ==> '`' !in lines[j]
    ensures forall j :: 0 <= j < |lines| ==> !Contains(Trim(lines[j]), PrologFence)
  {
    forall j | 0 <= j < |lines|
      ensures !Contains(Trim(lines[j]), PrologFence)
    {
      NoBacktickIsNoFence(lines[j]);
      ClassifyTrimmed(lines[j], Trim(lines[j]));
    }
  }

  /** The lines of the text without a prolog block. */
  const TextWithoutCodeBlock: seq<string> := ["Text without code block", "", "junk", "ignore"]

  lemma TextWithoutCodeBlockHasNoBacktick()
    ensures forall j :: 0 <= j < |TextWithoutCodeBlock| ==> '`' !in TextWithoutCodeBlock[j]
    ensures forall j :: 0 <= j < |TextWithoutCodeBlock| ==> '\n' !in TextWithoutCodeBlock[j]
  {
    assert '\n' !in "Text without code block";
    assert '\n' !in "junk";
    assert '\n' !in "ignore";
    assert '`' !in "Text without code block";
    assert '`' !in "junk";
    assert '`' !in "ignore";
  }

  /** A text without a prolog block: "No code block found". */
  lemma ParseWithoutCodeBlockExample()
    ensures ParseSpec(SplitLines("Text without code block\n\njunk\nignore")) == Failure(NoCodeBlockFound)
  {
    var lines := TextWithoutCodeBlock;
    assert JoinLines(lines) == "Text without code block\n\njunk\nignore";
    TextWithoutCodeBlockHasNoBacktick();
    SplitJoinLines(lines);
    NoBacktickLines(lines);
    NoCodeBlockFoundIff(lines);
  }

  /** The lines of a prolog block holding two lines of junk. */
  const BlockWithJunk: seq<string> := ["", "```prolog", "junk1.", "junk2.", "```", ""]

  lemma ClassifyBlankLine()
    ensures Classify("") == IgnoredLine
  {
    assert Trim("") == "";
  }

  lemma ClassifyPrologFence()
    ensures Classify(PrologFence) == PrologFenceLine
  {
    assert Trim(PrologFence) == PrologFence;
    assert StartsWith(PrologFence, PrologFence);
  }

  lemma ClassifyFence()
    ensures Classify(Fence) == ClosingFenceLine
  {
    assert Trim(Fence) == Fence;
  }

  /**
   * A line without a backtick or surrounding whitespace that starts with
   * neither `%` nor `o` is unrecognized.
   */
  lemma ClassifyOtherLine(line: string)
    requires '`' !in line && line != [] && !IsWhitespace(line[0]) && !IsWhitespace(line[|line| - 1])
    requires line[0] != '%' && line[0] != 'o'
    ensures Classify(line) == UnrecognizedLine
  {
    NoBacktickIsNoFence(line);
    assert Trim(line) == line;
    assert "object(input"[0] == 'o';
  }

  lemma ClassifyJunk(line: string)
    requires line == "junk1." || line == "junk2."
    ensures Classify(line) == UnrecognizedLine
  {
    assert '`' !in line;
    assert line[0] == 'j' && line[|line| - 1] == '.';
    ClassifyOtherLine(line);
  }

  lemma ParseSpecOfKinds(lines: seq<string>, kinds: seq<LineKind>)
    requires Classification(lines) == kinds
    ensures ParseSpec(lines) == ParseKinds(lines, kinds)
  {
  }

  /** A sequence of kinds that agrees with every line is the classification. */
  lemma ClassificationIs(lines: seq<string>, kinds: seq<LineKind>)
    requires |kinds| == |lines| && forall j :: 0 <= j < |lines| ==> Classify(lines[j]) == kinds[j]
    ensures Classification(lines) == kinds
  {
    ClassificationAll(lines);
  }

  lemma BlockWithJunkKinds()
    ensures Classification(BlockWithJunk) ==
            [IgnoredLine, PrologFenceLine, UnrecognizedLine, UnrecognizedLine, ClosingFenceLine, IgnoredLine]
  {
    var lines := BlockWithJunk;
    var kinds := [IgnoredLine, PrologFenceLine, UnrecognizedLine, UnrecognizedLine, ClosingFenceLine, IgnoredLine];
    assert lines[0] == "" && lines[1] == PrologFence && lines[2] == "junk1." && lines[3] == "junk2."
        && lines[4] == Fence && lines[5] == "";
    forall j | 0 <= j < |lines|
      ensures Classify(lines[j]) == kinds[j]
    {
      if j == 0 || j == 5 {
        ClassifyBlankLine();
      } else if j == 1 {
        ClassifyPrologFence();
      } else if j == 4 {
        ClassifyFence();
      } else {
        ClassifyJunk(lines[j]);
      }
    }
    ClassificationIs(lines, kinds);
  }

  /** The test's text, written line by line as JoinLines builds it. */
  lemma BlockWithJunkText()
    ensures "" + "\n" + (PrologFence + "\n" + ("junk1." + "\n" + ("junk2." + "\n" + (Fence + "\n" + ""))))
            == "\n```prolog\njunk1.\njunk2.\n```\n"
  {
  }

  lemma BlockWithJunkSplits()
    ensures SplitLines("\n```prolog\njunk1.\njunk2.\n```\n") == BlockWithJunk
  {
    var lines := BlockWithJunk;
    assert lines[1..][1..][1..][1..][1..] == [""];
    assert JoinLines(lines)
        == "" + "\n" + (PrologFence + "\n" + ("junk1." + "\n" + ("junk2." + "\n" + (Fence + "\n" + ""))));
    BlockWithJunkText();
    assert forall j :: 0 <= j < |lines| ==> '\n' !in lines[j];
    SplitJoinLines(lines);
  }

  lemma BlockWithJunkResult()
    ensures ParseKinds(BlockWithJunk,
                       [IgnoredLine, PrologFenceLine, UnrecognizedLine, UnrecognizedLine, ClosingFenceLine, IgnoredLine])
            == Failure(UnrecognizedLines(2))
  {
    var kinds := [IgnoredLine, PrologFenceLine, UnrecognizedLine, UnrecognizedLine, ClosingFenceLine, IgnoredLine];
    assert CountPrologFences(kinds, 6) == 1;
    assert FirstPrologFence(kinds, 6) == 1;
    assert BlockEnd(kinds, 2) == 4;
    assert CountUnrecognized(kinds, 2, 4) == 2;
  }

  /** Two unrecognized lines in the block: "2 unrecognized lines inside the code block". */
  lemma ParseUnrecognizedLinesExample()
    ensures ParseSpec(SplitLines("\n```prolog\njunk1.\njunk2.\n```\n")) == Failure(UnrecognizedLines(2))
  {
    BlockWithJunkSplits();
    BlockWithJunkKinds();
    BlockWithJunkResult();
  }

  /** The messages the errors of both examples carry. */
  lemma ErrorMessageExamples()
    ensures ErrorMessage(NoCodeBlockFound) == "No code block found"
    ensures ErrorMessage(MultipleCodeBlocksFound) == "Multiple code blocks found"
    ensures ErrorMessage(UnrecognizedLines(2)) == "2" + UnrecognizedLinesText
  {
    assert NatToString(2) == "2";
  }

  /** A line without a backtick or surrounding whitespace is its own trimmed text and no fence. */
  lemma PlainLine(line: string)
    requires '`' !in line && line != [] && !IsWhitespace(line[0]) && !IsWhitespace(line[|line| - 1])
    ensures Trim(line) == line
    ensures Classify(line) != PrologFenceLine && Classify(line) != ClosingFenceLine
  {
    NoBacktickIsNoFence(line);
  }

  lemma ClassifyCommentLine(line: string)
    requires '`' !in line && line != [] && !IsWhitespace(line[|line| - 1]) && line[0] == '%'
    ensures Classify(line) == IgnoredLine
  {
    PlainLine(line);
  }

  lemma ClassifyInputLine(line: string)
    requires StartsWith(line, "object(input") && '`' !in line && !IsWhitespace(line[|line| - 1])
    ensures Classify(line) == IgnoredLine
  {
    assert line[0] == 'o';
    PlainLine(line);
  }

  lemma ClassifyOutputLine(line: string)
    requires StartsWith(line, "object(output") && '`' !in line && !IsWhitespace(line[|line| - 1])
    ensures Classify(line) == OutputLine
  {
    assert line[0] == 'o';
    PlainLine(line);
    OutputPrefixClassifies(line);
  }

  /** A response in the shape the language model gives: prose around one prolog block. */
  const Response: seq<string> := [
    "Predicted output:",
    "```prolog",
    "% Example 4 input",
    "object(input4_a).",
    "",
    "object(output4_a).",
    "object(output4_b).",
    "object(output4_c).",
    "```",
    "Note: sorted."
  ]

  const ResponseKinds: seq<LineKind> := [
    UnrecognizedLine, PrologFenceLine, IgnoredLine, IgnoredLine, IgnoredLine,
    OutputLine, OutputLine, OutputLine, ClosingFenceLine, UnrecognizedLine
  ]

  lemma ResponseProse(j: nat)
    requires j == 0 || j == 9
    ensures Classify(Response[j]) == ResponseKinds[j]
  {
    var line := Response[j];
    assert '`' !in line && line[|line| - 1] in ":.";
    assert line[0] == 'P' || line[0] == 'N';
    ClassifyOtherLine(line);
  }

  lemma ResponseFences(j: nat)
    requires j == 1 || j == 4 || j == 8
    ensures Classify(Response[j]) == ResponseKinds[j]
  {
    if j == 1 {
      assert Response[j] == PrologFence;
      ClassifyPrologFence();
    } else if j == 4 {
      assert Response[j] == "";
      ClassifyBlankLine();
    } else {
      assert Response[j] == Fence;
      ClassifyFence();
    }
  }

  lemma ResponseComment()
    ensures Classify(Response[2]) == ResponseKinds[2]
  {
    var line := Response[2];
    assert '`' !in line && line[0] == '%' && line[|line| - 1] == 't';
    ClassifyCommentLine(line);
  }

  lemma ResponseInput()
    ensures Classify(Response[3]) == ResponseKinds[3]
  {
    var line := Response[3];
    assert '`' !in line && line[|line| - 1] == '.' && line[..12] == "object(input";
    ClassifyInputLine(line);
  }

  lemma ResponseOutput(j: nat)
    requires 5 <= j <= 7
    ensures Classify(Response[j]) == ResponseKinds[j]
  {
    var line := Response[j];
    assert '`' !in line && line[|line| - 1] == '.' && line[..13] == "object(output";
    ClassifyOutputLine(line);
  }

  lemma ResponseKindsClassify()
    ensures Classification(Response) == ResponseKinds
  {
    forall j | 0 <= j < |Response|
      ensures Classify(Response[j]) == ResponseKinds[j]
    {
      if j == 0 || j == 9 {
        ResponseProse(j);
      } else if j == 1 || j == 4 || j == 8 {
        ResponseFences(j);
      } else if j == 2 {
        ResponseComment();
      } else if j == 3 {
        ResponseInput();
      } else {
        ResponseOutput(j);
      }
    }
    ClassificationIs(Response, ResponseKinds);
  }

  lemma ResponseResult()
    ensures ParseKinds(Response, ResponseKinds) == Success(ParseNaturalLanguage(Response[5..8]))
  {
    var kinds := ResponseKinds;
    assert CountPrologFences(kinds, 10) == 1;
    assert FirstPrologFence(kinds, 10) == 1;
    assert BlockEnd(kinds, 2) == 8;
    assert CountUnrecognized(kinds, 2, 8) == 0;
    assert OutputLines(Response, kinds, 2, 8) == Response[5..8];
  }

  lemma ResponseHasNoNewline()
    ensures forall j :: 0 <= j < |Response| ==> '\n' !in Response[j]
  {
    forall j | 0 <= j < |Response|
      ensures '\n' !in Response[j]
    {
    }
  }

  lemma ResponseSplitJoin()
    ensures SplitLines(JoinLines(Response)) == Response
  {
    ResponseHasNoNewline();
    SplitJoinLines(Response);
  }

  /** The prose around the block is ignored and the three output lines are extracted. */
  lemma ParseResponseExample()
    ensures ParseSpec(SplitLines(JoinLines(Response))) == Success(ParseNaturalLanguage(Response[5..8]))
    ensures |Response[5..8]| == 3
  {
    ResponseSplitJoin();
    ResponseKindsClassify();
    ParseSpecOfKinds(Response, ResponseKinds);
    ResponseResult();
  }
}
