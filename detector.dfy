/**
 * The detector object: the per-class source cache (`srcInited`,
 * `sourceLines`) and `visitMethod`, which loads the lines once per class and
 * hands them to the comment-coverage check.
 */
module Detector {
  import opened Wrappers
  import opened SourceLocator
  import opened CommentCoverage

  /**
   * The lines left in the field after a load attempt: the file's lines when a
   * reader was found and read to the end, otherwise what the field held.
   */
  function LoadResult(previous: Option<seq<string>>, located: Option<Content>): (r: Option<seq<string>>)
    ensures (located.Some? && located.value.Text?) ==> r == Some(located.value.lines)
    ensures !(located.Some? && located.value.Text?) ==> r == previous
  {
    match located
    case Some(Text(lines)) => Some(lines)
    case _ => previous
  }

  class BadCommentsDetector {
    /** Whether this class's source has already been looked for. */
    var srcInited: bool
    /** The lines of the last source file read, if any (`null` in the source until a load succeeds). */
    var sourceLines: Option<seq<string>>
    /** How many times the locator has been asked, for stating the cache's promise. */
    ghost var locateCalls: nat

    constructor ()
      ensures !srcInited && sourceLines == None && locateCalls == 0
    {
      srcInited := false;
      sourceLines := None;
      locateCalls := 0;
    }

    /**
     * The lines `GetSourceLines` would return now for a method of the class
     * located by `loc`. Lines once held are never lost, and the held lines are
     * replaced only by a first load this class that read a file to the end.
     */
    function Pending(loc: Locator): (r: Option<seq<string>>)
      reads this
      ensures sourceLines.Some? ==> r.Some?
      ensures r != sourceLines ==> !srcInited && FindSourceReader(loc) == Some(Text(r.value))
    {
      if srcInited then sourceLines else LoadResult(sourceLines, FindSourceReader(loc))
    }

    /** `visitClassContext`: a new class begins, so its source has not been looked for yet. */
    method VisitClassContext()
      modifies this
      ensures !srcInited
      ensures sourceLines == old(sourceLines) && locateCalls == old(locateCalls)
    {
      srcInited := false;
    }

    /**
     * `getSourceLines`: the first call after a reset asks the locator once and
     * keeps the lines it read; any later call returns the field untouched.
     * Success and failure both end the attempt for this class.
     */
    method GetSourceLines(loc: Locator) returns (r: Option<seq<string>>)
      modifies this
      ensures srcInited
      ensures r == sourceLines
      ensures sourceLines == old(Pending(loc))
      ensures old(srcInited) ==> sourceLines == old(sourceLines) && locateCalls == old(locateCalls)
      ensures !old(srcInited) ==> locateCalls == old(locateCalls) + 1
      ensures !old(srcInited) && FindSourceReader(loc).None? ==> sourceLines == old(sourceLines)
    {
      if srcInited {
        return sourceLines;
      }
      var located := FindSourceReader(loc);
      locateCalls := locateCalls + 1;
      if located.Some? && located.value.Text? {
        sourceLines := Some(located.value.lines);
      }
      srcInited := true;
      return sourceLines;
    }

    /**
     * `visitMethod`: load the class's lines (at most once per class), give up
     * when there are none, and otherwise report as the coverage check decides.
     */
    method VisitMethod(loc: Locator, startLine: int, endLine: int) returns (report: Option<Severity>)
      requires Pending(loc).Some? ==> ScanSafe(startLine, endLine, |Pending(loc).value|)
      modifies this
      ensures srcInited
      ensures sourceLines == old(Pending(loc))
      ensures locateCalls == old(locateCalls) + (if old(srcInited) then 0 else 1)
      ensures report == match sourceLines
                        case None => None
                        case Some(lines) => Evaluate(lines, startLine, endLine)
    {
      var lines := GetSourceLines(loc);
      sourceLines := lines;
      if lines.None? {
        return None;
      }
      report := CheckCoverage(lines.value, startLine, endLine);
    }
  }

  /**
   * Two methods of one class, then a second class: the locator is asked once
   * per class, the second method gets the first method's lines whatever its own
   * locator would say, and a class whose load fails gets the previous class's
   * lines.
   */
  method OneLoadPerClass(classA: Locator, laterMethodOfA: Locator, classB: Locator)
    returns (first: Option<seq<string>>, second: Option<seq<string>>, next: Option<seq<string>>, ghost loads: nat)
    ensures first == LoadResult(None, FindSourceReader(classA))
    ensures second == first
    ensures next == LoadResult(first, FindSourceReader(classB))
    ensures FindSourceReader(classB).None? ==> next == first
    ensures loads == 2
  {
    var detector := new BadCommentsDetector();
    detector.VisitClassContext();
    first := detector.GetSourceLines(classA);
    second := detector.GetSourceLines(laterMethodOfA);
    detector.VisitClassContext();
    next := detector.GetSourceLines(classB);
    loads := detector.locateCalls;
  }
}
