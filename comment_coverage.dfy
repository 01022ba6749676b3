/**
 * The comment-coverage verdict of `BadCommentsDetector.visitMethod`: given a
 * method's first and last line numbers and the lines of its source file, scan
 * a window of lines, note whether any of them holds a `//` marker, count the
 * lines that are not blank, and decide whether to report BAD_COMMENTS and at
 * which priority.
 */
module CommentCoverage {
  import opened Wrappers

  /** The priority of a BAD_COMMENTS report (FindBugs' LOW, NORMAL and HIGH). */
  datatype Severity = Low | Normal | High

  /** Orders the priorities from the mildest to the most severe. */
  function Rank(s: Severity): nat {
    match s
    case Low => 0
    case Normal => 1
    case High => 2
  }

  // ---------------------------------------------------------------------------
  // Per-line tests
  // ---------------------------------------------------------------------------

  /** Java's regular-expression class `\s`: space, tab, newline, vertical tab, form feed, carriage return. */
  predicate IsJavaWhitespace(c: char)
    ensures IsJavaWhitespace(c) ==> c <= ' '
  {
    c == ' ' || c == '\t' || c == '\n' || c == '\U{B}' || c == '\U{C}' || c == '\r'
  }

  /** The characters that Java's `.` does not match (no DOTALL flag). */
  predicate IsLineTerminator(c: char)
    ensures IsLineTerminator(c) && IsJavaWhitespace(c) <==> c == '\n' || c == '\r'
  {
    c == '\n' || c == '\r' || c == '\U{85}' || c == '\U{2028}' || c == '\U{2029}'
  }

  /**
   * `line.indexOf("//") >= 0`, as a left-to-right scan: some position holds
   * `/` followed by `/`.
   */
  predicate HasMarker(line: string)
    ensures HasMarker(line) <==> exists i :: 0 <= i < |line| - 1 && line[i] == '/' && line[i + 1] == '/'
  {
    |line| >= 2 && ((line[0] == '/' && line[1] == '/') || HasMarker(line[1..]))
  }

  predicate NoTerminator(s: string) {
    forall i :: 0 <= i < |s| ==> !IsLineTerminator(s[i])
  }

  /**
   * `line.matches("\\s*\\S.*")`, a match of the whole line: `\s*` can only
   * take the leading whitespace (`\S` never matches whitespace), then `\S`
   * takes the first other character and `.*` must take all that follows.
   */
  predicate MatchesNonBlank(line: string)
    ensures MatchesNonBlank(line) ==> HasContent(line)
  {
    if |line| == 0 then false
    else if IsJavaWhitespace(line[0]) then MatchesNonBlank(line[1..])
    else NoTerminator(line[1..])
  }

  /** All characters before index `k` are whitespace. */
  predicate BlankBefore(line: string, k: int)
    requires 0 <= k <= |line|
  {
    forall j :: 0 <= j < k ==> IsJavaWhitespace(line[j])
  }

  /** The line holds some character outside Java's `\s`. */
  predicate HasContent(line: string) {
    exists i :: 0 <= i < |line| && !IsJavaWhitespace(line[i])
  }

  /**
   * The regular expression read as a split of the line: a whitespace prefix,
   * one non-whitespace character at `k`, and a rest with no line terminator.
   */
  lemma {:induction false} MatchesNonBlankSplit(line: string)
    ensures MatchesNonBlank(line) <==>
              exists k :: 0 <= k < |line| && BlankBefore(line, k) && !IsJavaWhitespace(line[k])
                          && NoTerminator(line[k + 1..])
  {
    if |line| > 0 {
      var tail := line[1..];
      if IsJavaWhitespace(line[0]) {
        MatchesNonBlankSplit(tail);
        if MatchesNonBlank(line) {
          var k' :| 0 <= k' < |tail| && BlankBefore(tail, k') && !IsJavaWhitespace(tail[k'])
                    && NoTerminator(tail[k' + 1..]);
          assert line[k' + 1 + 1..] == tail[k' + 1..];
          assert BlankBefore(line, k' + 1) by {
            forall j | 0 <= j < k' + 1 ensures IsJavaWhitespace(line[j]) {
              if j > 0 { assert line[j] == tail[j - 1]; }
            }
          }
        }
        if exists k :: 0 <= k < |line| && BlankBefore(line, k) && !IsJavaWhitespace(line[k])
                       && NoTerminator(line[k + 1..]) {
          var k :| 0 <= k < |line| && BlankBefore(line, k) && !IsJavaWhitespace(line[k])
                   && NoTerminator(line[k + 1..]);
          assert k != 0;
          assert tail[k - 1 + 1..] == line[k + 1..];
          assert BlankBefore(tail, k - 1) by {
            forall j | 0 <= j < k - 1 ensures IsJavaWhitespace(tail[j]) {
              assert tail[j] == line[j + 1];
            }
          }
          assert tail[k - 1] == line[k];
        }
      } else {
        if MatchesNonBlank(line) {
          assert BlankBefore(line, 0);
        }
        if exists k :: 0 <= k < |line| && BlankBefore(line, k) && !IsJavaWhitespace(line[k])
                       && NoTerminator(line[k + 1..]) {
          var k :| 0 <= k < |line| && BlankBefore(line, k) && !IsJavaWhitespace(line[k])
                   && NoTerminator(line[k + 1..]);
          assert k == 0;
        }
      }
    }
  }

  /**
   * On a line without line terminators (every line `readLine` produces unless
   * it holds U+0085, U+2028 or U+2029) the pattern matches exactly the lines
   * with a non-whitespace character.
   */
  lemma {:induction false} NonBlankIffContent(line: string)
    requires NoTerminator(line)
    ensures MatchesNonBlank(line) <==> HasContent(line)
  {
    if |line| > 0 {
      var tail := line[1..];
      assert NoTerminator(tail) by {
        forall i | 0 <= i < |tail| ensures !IsLineTerminator(tail[i]) {
          assert tail[i] == line[i + 1];
        }
      }
      if IsJavaWhitespace(line[0]) {
        NonBlankIffContent(tail);
        if HasContent(line) {
          var i :| 0 <= i < |line| && !IsJavaWhitespace(line[i]);
          assert i > 0 && tail[i - 1] == line[i];
        }
        if HasContent(tail) {
          var i :| 0 <= i < |tail| && !IsJavaWhitespace(tail[i]);
          assert line[i + 1] == tail[i];
        }
      } else {
        assert !IsJavaWhitespace(line[0]);
      }
    }
  }

  /**
   * The pattern's `.` stops at a line terminator: a line with content whose
   * remainder holds U+2028 is not counted as non-blank.
   */
  lemma TerminatorLineNotCounted()
    ensures HasContent("x\U{2028}") && !MatchesNonBlank("x\U{2028}")
  {
    assert !IsJavaWhitespace("x\U{2028}"[0]);
    assert !NoTerminator("x\U{2028}"[1..]) by {
      assert IsLineTerminator("x\U{2028}"[1..][0]);
    }
  }

  // ---------------------------------------------------------------------------
  // The scanned window
  // ---------------------------------------------------------------------------

  /**
   * The condition under which the scan loop of `visitMethod` never indexes
   * outside the line array: the bounds are skipped as malformed, or the loop
   * does not run, or every index from startLine - 1 to endLine is valid.
   */
  predicate ScanSafe(startLine: int, endLine: int, lineCount: int) {
    startLine < 0 || endLine < 0 || endLine < startLine - 1 || (1 <= startLine && endLine < lineCount)
  }

  /** The lines the loop reads: indices startLine - 1 through endLine, both included. */
  function Window(lines: seq<string>, startLine: int, endLine: int): (w: seq<string>)
    requires 0 <= startLine && 0 <= endLine && ScanSafe(startLine, endLine, |lines|)
    ensures |w| == if endLine < startLine - 1 then 0 else endLine - startLine + 2
    ensures forall k :: 0 <= k < |w| ==> w[k] == lines[startLine - 1 + k]
  {
    if endLine < startLine - 1 then [] else lines[startLine - 1..endLine + 1]
  }

  /** Some line of the window holds a `//` marker. */
  predicate AnyComment(w: seq<string>)
    ensures AnyComment(w) <==> exists j :: 0 <= j < |w| && HasMarker(w[j])
  {
    w != [] && (AnyComment(w[..|w| - 1]) || HasMarker(w[|w| - 1]))
  }

  /** The number of lines of `w` the non-blank pattern matches. */
  function NonBlankCount(w: seq<string>): (n: nat)
    ensures n <= |w|
  {
    if w == [] then 0
    else NonBlankCount(w[..|w| - 1]) + (if MatchesNonBlank(w[|w| - 1]) then 1 else 0)
  }

  /** The positions of the non-blank lines of `w`. */
  function NonBlankIndices(w: seq<string>): set<int> {
    set i | 0 <= i < |w| && MatchesNonBlank(w[i])
  }

  /** The count is the number of positions whose line is non-blank. */
  lemma {:induction false} NonBlankCountIsIndexCount(w: seq<string>)
    ensures NonBlankCount(w) == |NonBlankIndices(w)|
  {
    if w != [] {
      var n := |w| - 1;
      var p := w[..n];
      NonBlankCountIsIndexCount(p);
      if MatchesNonBlank(w[n]) {
        assert NonBlankIndices(w) == NonBlankIndices(p) + {n};
      } else {
        assert NonBlankIndices(w) == NonBlankIndices(p);
      }
    }
  }

  /**
   * When no scanned line holds a line terminator, the count is the number of
   * positions whose line has a character outside Java's `\s`.
   */
  lemma NonBlankCountCountsContentLines(w: seq<string>)
    requires forall k :: 0 <= k < |w| ==> NoTerminator(w[k])
    ensures NonBlankCount(w) == |set i | 0 <= i < |w| && HasContent(w[i])|
  {
    NonBlankCountIsIndexCount(w);
    forall i | 0 <= i < |w| ensures MatchesNonBlank(w[i]) <==> HasContent(w[i]) {
      NonBlankIffContent(w[i]);
    }
    assert NonBlankIndices(w) == set i | 0 <= i < |w| && HasContent(w[i]);
  }

  // ---------------------------------------------------------------------------
  // The verdict
  // ---------------------------------------------------------------------------

  /** The priority ladder: LOW, raised to NORMAL above 10 lines and to HIGH above 25. */
  function SeverityFor(nonEmptyLines: int): (s: Severity)
    ensures s == Low <==> nonEmptyLines <= 10
    ensures s == Normal <==> 10 < nonEmptyLines <= 25
    ensures s == High <==> 25 < nonEmptyLines
  {
    if nonEmptyLines > 25 then High else if nonEmptyLines > 10 then Normal else Low
  }

  /** The report of `visitMethod` for the given source lines and method bounds. */
  function Evaluate(lines: seq<string>, startLine: int, endLine: int): (r: Option<Severity>)
    requires ScanSafe(startLine, endLine, |lines|)
    ensures r.Some? ==> 1 <= startLine && startLine + 1 <= endLine < |lines|
  {
    if startLine < 0 || endLine < 0 then None
    else
      var w := Window(lines, startLine, endLine);
      if !AnyComment(w) && NonBlankCount(w) > 2 then Some(SeverityFor(NonBlankCount(w))) else None
  }

  /** Malformed bounds never produce a report, whatever the lines are. */
  lemma MalformedBoundsSkipped(lines: seq<string>, startLine: int, endLine: int)
    requires startLine < 0 || endLine < 0
    ensures Evaluate(lines, startLine, endLine) == None
  {
  }

  /**
   * A report is made exactly when the bounds are well formed, no line from
   * index startLine - 1 to endLine holds `//`, and more than two of those
   * lines are non-blank; its priority follows the count.
   */
  lemma ReportIff(lines: seq<string>, startLine: int, endLine: int)
    requires ScanSafe(startLine, endLine, |lines|)
    ensures Evaluate(lines, startLine, endLine).Some? <==>
              0 <= startLine && 0 <= endLine
              && (forall i :: startLine - 1 <= i <= endLine ==> !HasMarker(lines[i]))
              && NonBlankCount(Window(lines, startLine, endLine)) > 2
    ensures Evaluate(lines, startLine, endLine).Some? ==>
              Evaluate(lines, startLine, endLine).value
                == SeverityFor(NonBlankCount(Window(lines, startLine, endLine)))
  {
    if 0 <= startLine && 0 <= endLine {
      var w := Window(lines, startLine, endLine);
      if AnyComment(w) {
        var j :| 0 <= j < |w| && HasMarker(w[j]);
        assert w[j] == lines[startLine - 1 + j];
      } else {
        forall i | startLine - 1 <= i <= endLine ensures !HasMarker(lines[i]) {
          assert w[i - (startLine - 1)] == lines[i];
        }
      }
    }
  }

  /** One `//` anywhere in the window suppresses the report, whatever the size of the method. */
  lemma CommentSuppresses(lines: seq<string>, startLine: int, endLine: int, i: int)
    requires 1 <= startLine && startLine - 1 <= i <= endLine < |lines|
    requires HasMarker(lines[i])
    ensures Evaluate(lines, startLine, endLine) == None
  {
    ReportIff(lines, startLine, endLine);
  }

  /** A window whose every line is non-blank counts all of them. */
  lemma {:induction false} AllNonBlankCounted(w: seq<string>)
    requires forall k :: 0 <= k < |w| ==> MatchesNonBlank(w[k])
    ensures NonBlankCount(w) == |w|
  {
    if w != [] {
      AllNonBlankCounted(w[..|w| - 1]);
    }
  }

  /** More non-blank lines never lower the priority. */
  lemma SeverityMonotone(n: int, m: int)
    requires n <= m
    ensures Rank(SeverityFor(n)) <= Rank(SeverityFor(m))
  {
  }

  /**
   * A reported method stays reported, at no lower priority, when compared with
   * any uncommented window that has at least as many non-blank lines.
   */
  lemma UncommentedReportMonotone(lines: seq<string>, startLine: int, endLine: int,
                                  lines': seq<string>, startLine': int, endLine': int)
    requires ScanSafe(startLine, endLine, |lines|) && ScanSafe(startLine', endLine', |lines'|)
    requires Evaluate(lines, startLine, endLine).Some?
    requires 0 <= startLine' && 0 <= endLine'
    requires !AnyComment(Window(lines', startLine', endLine'))
    requires NonBlankCount(Window(lines, startLine, endLine)) <= NonBlankCount(Window(lines', startLine', endLine'))
    ensures Evaluate(lines', startLine', endLine').Some?
    ensures Rank(Evaluate(lines, startLine, endLine).value) <= Rank(Evaluate(lines', startLine', endLine').value)
  {
    SeverityMonotone(NonBlankCount(Window(lines, startLine, endLine)),
                     NonBlankCount(Window(lines', startLine', endLine')));
  }

  // ---------------------------------------------------------------------------
  // Worked examples
  // ---------------------------------------------------------------------------

  /** Four of the five lines of the short example are non-blank. */
  lemma ShortExampleCount(w: seq<string>)
    requires w == ["f() {", "  x++;", "", "  y++;", "}"]
    ensures NonBlankCount(w) == 4
  {
    assert MatchesNonBlank(w[0]) by { assert !IsJavaWhitespace(w[0][0]); }
    assert MatchesNonBlank(w[1]) by { assert !IsJavaWhitespace(w[1][2]) && w[1][1..][1..] == w[1][2..]; }
    assert MatchesNonBlank(w[3]) by { assert !IsJavaWhitespace(w[3][2]) && w[3][1..][1..] == w[3][2..]; }
    assert MatchesNonBlank(w[4]) by { assert !IsJavaWhitespace(w[4][0]); }
    assert NonBlankCount(w[..1]) == 1 by { assert w[..1][..0] == []; }
    assert NonBlankCount(w[..2]) == 2 by { assert w[..2][..1] == w[..1]; }
    assert NonBlankCount(w[..3]) == 2 by { assert w[..3][..2] == w[..2]; }
    assert NonBlankCount(w[..4]) == 3 by { assert w[..4][..3] == w[..3]; }
    assert w[..4] == w[..|w| - 1];
  }

  /** Five scanned lines, none with `//`, four of them non-blank: a LOW report. */
  lemma ShortUncommentedMethodIsLow()
    ensures Evaluate(["f() {", "  x++;", "", "  y++;", "}", ""], 1, 4) == Some(Low)
  {
    var lines := ["f() {", "  x++;", "", "  y++;", "}", ""];
    var w := Window(lines, 1, 4);
    assert w == lines[..5];
    ShortExampleCount(w);
    assert !AnyComment(w) by {
      forall j | 0 <= j < |w| ensures !HasMarker(w[j]) {
        assert forall i :: 0 <= i < |w[j]| ==> w[j][i] != '/';
      }
    }
  }

  /** Thirty non-blank lines without `//`: a HIGH report. */
  lemma LongUncommentedMethodIsHigh()
    ensures Evaluate(seq(31, _ => "x++;"), 1, 29) == Some(High)
  {
    var lines := seq(31, _ => "x++;");
    var w := Window(lines, 1, 29);
    assert MatchesNonBlank("x++;");
    assert !HasMarker("x++;");
    AllNonBlankCounted(w);
    assert !AnyComment(w);
  }

  /** Fifteen non-blank lines, one of them holding `// note`: no report. */
  lemma CommentedMethodIsNotReported()
    ensures Evaluate(seq(16, k => if k == 7 then "x++; // note" else "x++;"), 1, 14) == None
  {
    var lines := seq(16, k => if k == 7 then "x++; // note" else "x++;");
    assert "x++; // note"[5] == '/' && "x++; // note"[6] == '/';
    CommentSuppresses(lines, 1, 14, 7);
  }

  // ---------------------------------------------------------------------------
  // The scan as the detector runs it
  // ---------------------------------------------------------------------------

  /** Scanning one more line: the window has a comment iff it had one or the new line does. */
  lemma AnyCommentExtend(seen: seq<string>, line: string)
    ensures AnyComment(seen + [line]) <==> AnyComment(seen) || HasMarker(line)
  {
    var w := seen + [line];
    if AnyComment(seen) {
      var j :| 0 <= j < |seen| && HasMarker(seen[j]);
      assert w[j] == seen[j];
    }
    if AnyComment(w) && !HasMarker(line) {
      var j :| 0 <= j < |w| && HasMarker(w[j]);
      assert j < |seen| && seen[j] == w[j];
    }
    assert w[|seen|] == line;
  }

  /** Scanning one more line adds one to the count exactly when that line is non-blank. */
  lemma NonBlankCountExtend(seen: seq<string>, line: string)
    ensures NonBlankCount(seen + [line]) == NonBlankCount(seen) + if MatchesNonBlank(line) then 1 else 0
  {
    assert (seen + [line])[..|seen|] == seen;
  }

  /**
   * The body of `visitMethod` once the source lines are known: skip malformed
   * bounds, scan the window flagging `//` and counting non-blank lines, then
   * raise the priority step by step.
   */
  method CheckCoverage(lines: seq<string>, startLine: int, endLine: int) returns (report: Option<Severity>)
    requires ScanSafe(startLine, endLine, |lines|)
    ensures report == Evaluate(lines, startLine, endLine)
    ensures startLine < 0 || endLine < 0 ==> report == None
  {
    var hasComment := false;
    var nonEmptyLines := 0;
    if startLine < 0 || endLine < 0 {
      return None;
    }
    var i := startLine - 1;
    while i <= endLine
      invariant endLine < startLine - 1 ==> i == startLine - 1 && !hasComment && nonEmptyLines == 0
      invariant startLine - 1 <= endLine ==> startLine - 1 <= i <= endLine + 1
      invariant startLine - 1 <= endLine ==>
                  hasComment == AnyComment(lines[startLine - 1..i])
                  && nonEmptyLines == NonBlankCount(lines[startLine - 1..i])
    {
      ghost var seen := lines[startLine - 1..i];
      assert lines[startLine - 1..i + 1] == seen + [lines[i]];
      AnyCommentExtend(seen, lines[i]);
      NonBlankCountExtend(seen, lines[i]);
      if HasMarker(lines[i]) {
        hasComment := true;
      }
      if MatchesNonBlank(lines[i]) {
        nonEmptyLines := nonEmptyLines + 1;
      }
      i := i + 1;
    }
    if !hasComment && nonEmptyLines > 2 {
      var priority := Low;
      if nonEmptyLines > 10 {
        priority := Normal;
      }
      if nonEmptyLines > 25 {
        priority := High;
      }
      report := Some(priority);
    } else {
      report := None;
    }
  }
}
