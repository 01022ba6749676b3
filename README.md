# BadCommentsDetector in Dafny

A model of `BadCommentsDetector`, a FindBugs detector that reports BAD_COMMENTS
for methods with no `//` comment, at a priority that grows with the number of
non-blank lines. The model covers the detector's three parts:

- **Comment coverage** (`comment_coverage.dfy`, module `CommentCoverage`). The
  verdict of `visitMethod`. Malformed (negative) bounds are skipped. The scan
  reads line indices `startLine - 1` through `endLine`, both included. It flags
  any line containing `//`. It counts the lines matching Java's
  `\s*\S.*`. It reports when there is no comment and more than two non-blank
  lines: LOW, raised to NORMAL above 10 lines and to HIGH above 25.
  `CheckCoverage` is the scan loop as written. `Evaluate` is the function that
  specifies it. The lemmas state what the verdict means.
- **Source locator** (`source_locator.dfy`, module `SourceLocator`). The search
  `findSourceReader` performs, written as recursive functions over a finite
  directory tree (`Node`). Listing order is sequence order. The host finder is
  asked first. Then comes a depth-first search from the working directory. The
  first `src` entry of a level is final. Hidden entries are skipped. The probe
  opens `src/main/java/<source path>`.
- **Per-class cache** (`detector.dfy`, module `Detector`). The
  `BadCommentsDetector` class with its `srcInited` and `sourceLines` fields.
  `visitClassContext` clears the flag. The first `getSourceLines` of a class
  asks the locator once. Later calls return the field. A failed load leaves the
  field as it was.

Points where the code's behaviour is easy to misread (the model follows the
code):

- Malformed UTF-8 is not a read failure. `InputStreamReader` built with a
  `Charset` replaces bad bytes. Only an I/O failure makes a file `Unreadable`.
- A host finder that throws, in `findSourceFile` or in `getInputStream`, hands
  over to the recursive search. A stream it opened that then fails to read does
  not: reading happens after `findSourceReader` has returned.
- The no-backtracking rule holds only at the level where a `src` entry is
  found. When the probe under one project's `src` misses, that level returns
  `null`, and the level above goes on with its next entry
  (`MissInOneProjectFallsThrough`). A `src` that misses hides a good project
  beside it at the same level (`FirstSrcWinsAtOneLevel`).
- A failed load does not clear the lines of the previous class. Those lines are
  returned for the new class's methods (`OneLoadPerClass`).
- The scan does not guard its last index. A window running past the file makes
  Java throw an exception. The model makes the in-bounds condition (`ScanSafe`)
  a precondition.
- A line counts as non-blank only when the whole line matches `\s*\S.*`. Java's
  `.` does not match U+0085, U+2028 or U+2029, so a line holding one of these
  after its first visible character is not counted
  (`TerminatorLineNotCounted`). For lines without such characters, the count is
  exactly the lines holding a non-whitespace character (`NonBlankIffContent`).

## Model

| member | source | states |
|---|---|---|
| `CommentCoverage.CheckCoverage` | src/detector/BadCommentsDetector.java:60-85 | The scan loop and the step-by-step priority give exactly `Evaluate`'s verdict. Malformed bounds give no report. |
| `CommentCoverage.MalformedBoundsSkipped` | src/detector/BadCommentsDetector.java:62-64 | A negative start or end line produces no report, whatever the lines are. |
| `CommentCoverage.Window` | src/detector/BadCommentsDetector.java:65 | The scanned window holds `endLine - startLine + 2` lines (none when `endLine < startLine - 1`). Its k-th line is line `startLine - 1 + k`, one past the nominal end included. |
| `CommentCoverage.ReportIff` | src/detector/BadCommentsDetector.java:65-81 | A report is made if and only if the bounds are non-negative, no line from `startLine - 1` to `endLine` contains `//`, and more than two window lines are non-blank. Its priority is `SeverityFor` of that count. |
| `CommentCoverage.CommentSuppresses` | src/detector/BadCommentsDetector.java:66-74 | One `//` on any scanned line suppresses the report, whatever the method's size. |
| `CommentCoverage.MatchesNonBlankSplit` | src/detector/BadCommentsDetector.java:69 | The pattern `\s*\S.*` matches a line iff it splits into a whitespace prefix, one non-whitespace character, and a rest with no line terminator. |
| `CommentCoverage.IsJavaWhitespace` | src/detector/BadCommentsDetector.java:69 | Java's `\s` class: space, tab, newline, vertical tab, form feed, carriage return. Every one of them is at most U+0020. |
| `CommentCoverage.IsLineTerminator` | src/detector/BadCommentsDetector.java:69 | The characters Java's `.` refuses: newline, carriage return, U+0085, U+2028, U+2029. Of these only newline and carriage return are also in `\s`. |
| `CommentCoverage.AnyComment` | src/detector/BadCommentsDetector.java:60-68 | The `hasComment` flag after scanning a window, built line by line. It holds iff some window line holds `//`. |
| `CommentCoverage.HasMarker` | src/detector/BadCommentsDetector.java:66 | `indexOf("//") >= 0` as a left-to-right scan. It holds iff some position holds `/` followed by `/`. |
| `CommentCoverage.MatchesNonBlank` | src/detector/BadCommentsDetector.java:69 | The whole-line match of `\s*\S.*`: skip leading whitespace, take one other character, then require no line terminator in the rest. Every line it accepts holds a character outside Java's `\s`. |
| `CommentCoverage.NonBlankIffContent` | src/detector/BadCommentsDetector.java:69 | On a line without line terminators, the pattern matches iff the line holds a character outside Java's `\s`. |
| `CommentCoverage.TerminatorLineNotCounted` | src/detector/BadCommentsDetector.java:69 | A line with content followed by U+2028 is not counted as non-blank. |
| `CommentCoverage.NonBlankCount` | src/detector/BadCommentsDetector.java:61-71 | The non-blank count never exceeds the number of scanned lines. |
| `CommentCoverage.NonBlankCountCountsContentLines` | src/detector/BadCommentsDetector.java:61-71 | When no window line holds a line terminator, the count is the number of window lines with a character outside Java's `\s`. |
| `CommentCoverage.NonBlankCountIsIndexCount` | src/detector/BadCommentsDetector.java:65-71 | The count equals the number of window positions whose line matches the pattern. |
| `CommentCoverage.AllNonBlankCounted` | src/detector/BadCommentsDetector.java:69-71 | A window whose every line is non-blank counts all of its lines. |
| `CommentCoverage.Evaluate` | src/detector/BadCommentsDetector.java:60-85 | The report `visitMethod` makes for given lines and bounds: none for negative bounds; otherwise a report when the window has no `//` and more than two non-blank lines, at `SeverityFor` of the count. A report needs `1 <= startLine`, `startLine + 1 <= endLine` and `endLine` inside the file, since a shorter window cannot hold three non-blank lines. |
| `CommentCoverage.SeverityFor` | src/detector/BadCommentsDetector.java:75-81 | The priority is LOW for at most 10 lines, NORMAL for 11 to 25, and HIGH above 25. |
| `CommentCoverage.SeverityMonotone` | src/detector/BadCommentsDetector.java:75-81 | More non-blank lines never give a lower priority. |
| `CommentCoverage.UncommentedReportMonotone` | src/detector/BadCommentsDetector.java:74-81 | If one method is reported, any other method whose window has no `//` and at least as many non-blank lines is reported too, at a priority no lower. |
| `CommentCoverage.ShortUncommentedMethodIsLow` | src/detector/BadCommentsDetector.java:60-85 | Five scanned lines, four non-blank, no `//`: a LOW report. |
| `CommentCoverage.LongUncommentedMethodIsHigh` | src/detector/BadCommentsDetector.java:60-85 | Thirty non-blank scanned lines, no `//`: a HIGH report. |
| `CommentCoverage.CommentedMethodIsNotReported` | src/detector/BadCommentsDetector.java:60-85 | Fifteen non-blank lines, one holding `// note`: no report. |
| `SourceLocator.Listing` | src/detector/BadCommentsDetector.java:157-158 | `File.list()`: a directory lists its entries in order. A file (or an unlistable directory) lists nothing, which the callers treat like an empty directory. |
| `SourceLocator.IsHidden` | src/detector/BadCommentsDetector.java:171-173 | `f.startsWith(".")`. A hidden name is never `src`, `main` or `java`. |
| `SourceLocator.IndexOfName` | src/detector/BadCommentsDetector.java:162-167 | Finds the first entry with the given name in listing order. When no entry has that name, the result is `None`. |
| `SourceLocator.FindFolderWithName` | src/detector/BadCommentsDetector.java:182-193 | Returns an entry of the directory's listing that has the name. It returns nothing iff no listed entry has that name; an empty or unlistable directory has none. |
| `SourceLocator.FindSourceReader` | src/detector/BadCommentsDetector.java:133-150 | A host-finder hit is used as is. Otherwise the result is a file iff the recursive search opens one, and it is that file, which lies inside the working directory's tree. If both miss, the lookup fails. |
| `SourceLocator.Resolve` | src/detector/BadCommentsDetector.java:207-210 | Follows the source path one name at a time below a directory, as `new File(dir, path)` does. A node it reaches carries the path's last name. A file it reaches lies inside the starting tree. |
| `SourceLocator.Open` | src/detector/BadCommentsDetector.java:210-214 | Opening the probe's target: a missing target gives `null`, a file gives a reader on its content, and a directory raises. |
| `SourceLocator.SearchSrcForSLA` | src/detector/BadCommentsDetector.java:195-215 | Probes `main`, then `java`, then the source path below a `src` entry. Any reader it returns is on a file inside that `src` tree. |
| `SourceLocator.FindSrcRecursive` | src/detector/BadCommentsDetector.java:152-180 | The depth-first search of one directory: an empty level gives `null`, else the first `src` is probed, else the non-hidden entries are searched in order. Any reader it returns is on a file inside the directory's tree. |
| `SourceLocator.SearchEntries` | src/detector/BadCommentsDetector.java:170-179 | The second loop from entry `i` on: skips hidden entries, goes past `null` answers, and stops at the first other answer. Any reader it returns is on a file inside the directory's tree. |
| `SourceLocator.EmptyListingFindsNothing` | src/detector/BadCommentsDetector.java:157-160 | An empty or unlistable directory yields no reader. |
| `SourceLocator.ProbeIsConventionalPath` | src/detector/BadCommentsDetector.java:195-215 | The probe under `src` opens exactly the node at `main/java/<source path>`. A missing node gives no reader. A file gives its reader. A directory raises. |
| `SourceLocator.SrcCommitment` | src/detector/BadCommentsDetector.java:162-167 | When a level lists a `src` entry, the level's answer is the probe of its first `src`, whatever the other entries hold. |
| `SourceLocator.SrcMissIsFinal` | src/detector/BadCommentsDetector.java:164-165 | When the first `src` probe misses, the level yields no reader and no sibling is searched. |
| `SourceLocator.SearchEntriesNull` | src/detector/BadCommentsDetector.java:170-179 | The recursion loop gives `null` iff every non-hidden entry from the current one on gives `null`. |
| `SourceLocator.SearchEntriesFirstHit` | src/detector/BadCommentsDetector.java:170-179 | A non-`null` answer of the loop is that of the first non-hidden entry whose search is not `null`. |
| `SourceLocator.RecursionFirstHit` | src/detector/BadCommentsDetector.java:152-180 | A non-empty level without `src` answers with the first non-`null` answer of its non-hidden entries in listing order. It gives `null` iff all of them do. |
| `SourceLocator.HiddenEntriesIgnored` | src/detector/BadCommentsDetector.java:171-173 | Replacing a hidden entry by another hidden entry never changes the second loop's answer. |
| `SourceLocator.HiddenEntryIgnoredAtLevel` | src/detector/BadCommentsDetector.java:162-179 | Replacing a hidden entry of a directory by another hidden entry never changes what the search of that directory yields. |
| `SourceLocator.MavenProbeHits` | src/detector/BadCommentsDetector.java:195-215 | Under `src/main/java/pkg/Foo.java` the probe finds the file. |
| `SourceLocator.FallbackFindsMavenLayout` | src/detector/BadCommentsDetector.java:133-150 | When the host finder misses, `work/proj/src/main/java/pkg/Foo.java` is found by the recursive search. |
| `SourceLocator.FirstSrcWinsAtOneLevel` | src/detector/BadCommentsDetector.java:162-167 | A `src` without the layout hides a correct project beside it: the lookup fails. |
| `SourceLocator.MissInOneProjectFallsThrough` | src/detector/BadCommentsDetector.java:170-179 | A miss under one project's `src` lets the parent go on and find the next project's file. |
| `SourceLocator.DirectoryTargetAbortsSearch` | src/detector/BadCommentsDetector.java:207-212 | A directory at `a/src/main/java/pkg/Foo.java` makes the open throw. The exception ends the whole lookup, so project `b`'s `src/main/java/pkg/Foo.java` is never reached. |
| `SourceLocator.MissingTargetSearchContinues` | src/detector/BadCommentsDetector.java:170-179 | The same tree with nothing at `a`'s target: the probe misses, the parent goes on, and `b`'s file is found. |
| `Detector.LoadResult` | src/detector/BadCommentsDetector.java:110-120 | After a load attempt, the field holds the file's lines when a reader was read to the end, and otherwise its previous value. |
| `Detector.BadCommentsDetector.Pending` | src/detector/BadCommentsDetector.java:100-130 | The lines the next `getSourceLines` returns. Lines once held are never lost. The held lines change only through a first load of this class that read a file to the end, and then they become that file's lines. |
| `Detector.BadCommentsDetector.constructor` | src/detector/BadCommentsDetector.java:31-37 | A new detector has not looked for source and holds no lines. |
| `Detector.BadCommentsDetector.VisitClassContext` | src/detector/BadCommentsDetector.java:45-48 | Afterwards `srcInited` is false. The lines field is not touched. |
| `Detector.BadCommentsDetector.GetSourceLines` | src/detector/BadCommentsDetector.java:96-131 | Once `srcInited` holds, returns the field unchanged without asking the locator. Otherwise asks it exactly once and keeps what it read; a failed load leaves the field unchanged. `srcInited` is true afterwards either way. |
| `Detector.BadCommentsDetector.VisitMethod` | src/detector/BadCommentsDetector.java:51-87 | Loads at most once per class. Gives no report when no lines are held; otherwise the report is `Evaluate` on the held lines. |
| `Detector.OneLoadPerClass` | src/detector/BadCommentsDetector.java:96-131 | Two methods of one class cause one load, and the second gets the first's lines. A new class causes a fresh load. When that load fails, the new class gets the previous class's lines. |

## Left out

- The log stream to `/tmp/findbugsConsole.txt` and every `println` to it: logging only.
- File reading itself (`BufferedReader`, `readLine`, UTF-8 decoding, closing the reader). A file is its list of lines, or `Unreadable` when opening or reading it fails.
- A file that the tree search reaches but cannot open is modelled as a reader whose reading fails (`Unreadable`), not as an exception raised by the search. For the tree search both end the lookup with a failed load. This does not apply to the host finder: there a failure to open is `host == None`, and the tree search runs.
- The host's APIs (`SourceLineAnnotation.forEntireMethod`, `SourceFinder.findSourceFile`, `getClassContext`). The method's line bounds, the class's source path and the host finder's answer are inputs (`Locator`).
- `BugReporter`/`BugInstance`: the report is the returned `Option<Severity>`, without the class and method identity attached to it.
- The numeric values of FindBugs' LOW/NORMAL/HIGH priorities: an enumeration with an explicit order (`Rank`).
- The mapping from package name to path: the source path is given as its sequence of names. Special names (`.`, `..`, empty) are not modelled.
- File system semantics beyond a finite tree: symbolic links and cycles, permissions, races. A directory that cannot be listed behaves like an empty one.
- `Detector.BadCommentsDetector.VisitClassContext` stops after clearing the flag (`BadCommentsDetector.java:46`). The call to `super.visitClassContext` (`:47`), through which FindBugs visits the class's methods, is not modelled; the caller visits the methods itself, as `OneLoadPerClass` does.
- The `srcLineAnnotation != null` test (`BadCommentsDetector.java:108`) and the `currentDir == null` test (`:153-155`): neither value can be null in the model.
- The exception Java throws when the scan window runs past the file: the model requires the window to be in bounds (`ScanSafe`) instead of modelling the crash.
- 32-bit overflow of the loop index and of the counter: the window must lie inside the file, so neither can overflow.
