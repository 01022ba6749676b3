/**
 * How `BadCommentsDetector` finds the text of a class's source file: first the
 * host's source finder, then a depth-first search from the working directory
 * for a Maven-style `src/main/java/<source path>` file. The file system is a
 * finite tree whose directory listings are sequences in listing order.
 */
module SourceLocator {
  import opened Wrappers

  /**
   * What a file yields once a reader is on it: its lines, or an I/O failure
   * while reading them. For a file the tree search reaches, `Unreadable` also
   * stands for a failure to open it (see `Open`).
   */
  datatype Content = Text(lines: seq<string>) | Unreadable

  /**
   * A directory entry. A directory that cannot be listed behaves, for every
   * operation here, like an empty one.
   */
  datatype Node = FileN(name: string, content: Content) | DirN(name: string, children: seq<Node>)

  /**
   * The result of `findSrcRecursive` and `searchSrcForSLA`: a reader on a
   * file, `null`, or an IOException that leaves the whole search.
   */
  datatype Search = Reader(content: Content) | NoReader | Raised

  /**
   * The inputs of one source lookup. `host` is the host finder's answer:
   * `None` when `findSourceFile` or `getInputStream` throws (both are caught
   * and the tree search runs), otherwise what reading the opened stream yields.
   * Then come the working directory and the class's source path.
   */
  datatype Locator = Locator(host: Option<Content>, cwd: Node, sourcePath: seq<string>)

  /** `File.list()`, where `null` and an empty array are handled alike by every caller. */
  function Listing(n: Node): (r: seq<Node>)
    ensures n.FileN? ==> r == []
    ensures n.DirN? ==> r == n.children
  {
    match n
    case FileN(_, _) => []
    case DirN(_, children) => children
  }

  /** `f.startsWith(".")`. */
  predicate IsHidden(name: string)
    ensures IsHidden(name) ==> name != "src" && name != "main" && name != "java"
  {
    |name| > 0 && name[0] == '.'
  }

  /** The position of the first entry called `name`, scanning in listing order. */
  function IndexOfName(entries: seq<Node>, name: string): (r: Option<nat>)
    ensures r.Some? ==> r.value < |entries| && entries[r.value].name == name
                        && forall j :: 0 <= j < r.value ==> entries[j].name != name
    ensures r.None? ==> forall j :: 0 <= j < |entries| ==> entries[j].name != name
  {
    if |entries| == 0 then None
    else if entries[0].name == name then Some(0)
    else match IndexOfName(entries[1..], name)
      case None => None
      case Some(k) => Some(k + 1)
  }

  /** `findFolderWithName`: the first entry of `dir` called `name`, if `dir` lists one. */
  function FindFolderWithName(dir: Node, name: string): (r: Option<Node>)
    ensures r.Some? ==> r.value in Listing(dir) && r.value.name == name
    ensures r.None? <==> forall c :: c in Listing(dir) ==> c.name != name
  {
    match IndexOfName(Listing(dir), name)
    case None => None
    case Some(k) => Some(Listing(dir)[k])
  }

  /** A file holding `c` lies somewhere in the tree rooted at `n`. */
  ghost predicate HoldsFile(n: Node, c: Content) {
    match n
    case FileN(_, content) => content == c
    case DirN(_, children) => exists child :: child in children && HoldsFile(child, c)
  }

  /** `new File(dir, path)` when it exists: the node reached by following `path` one name at a time. */
  function Resolve(n: Node, path: seq<string>): (r: Option<Node>)
    ensures r.Some? && r.value.FileN? ==> HoldsFile(n, r.value.content)
    ensures r.Some? && path != [] ==> r.value.name == path[|path| - 1]
    decreases |path|
  {
    if path == [] then Some(n)
    else match FindFolderWithName(n, path[0])
      case None => None
      case Some(c) => Resolve(c, path[1..])
  }

  /**
   * The end of `searchSrcForSLA`: a missing file gives `null`, a file gives a
   * reader, and a directory makes `FileInputStream` throw.
   */
  function Open(target: Option<Node>): (r: Search)
    ensures r.Reader? <==> target.Some? && target.value.FileN?
    ensures r.Reader? ==> r.content == target.value.content
    ensures r == NoReader <==> target.None?
  {
    match target
    case None => NoReader
    case Some(FileN(_, content)) => Reader(content)
    case Some(DirN(_, _)) => Raised
  }

  /** `searchSrcForSLA`: probe `main`, then `java`, then the source path below a `src` entry. */
  function SearchSrcForSLA(src: Node, sourcePath: seq<string>): (r: Search)
    ensures r.Reader? ==> HoldsFile(src, r.content)
  {
    match FindFolderWithName(src, "main")
    case None => NoReader
    case Some(mainDir) =>
      match FindFolderWithName(mainDir, "java")
      case None => NoReader
      case Some(javaDir) => Open(Resolve(javaDir, sourcePath))
  }

  /**
   * `findSrcRecursive`: an empty or unlistable directory gives `null`; the
   * first `src` entry is probed and its answer is final; otherwise the
   * non-hidden entries are searched in listing order.
   */
  function FindSrcRecursive(dir: Node, sourcePath: seq<string>): (r: Search)
    ensures r.Reader? ==> HoldsFile(dir, r.content)
    decreases dir, 1, 0
  {
    if |Listing(dir)| == 0 then NoReader
    else match IndexOfName(Listing(dir), "src")
      case Some(k) => SearchSrcForSLA(Listing(dir)[k], sourcePath)
      case None => SearchEntries(dir, sourcePath, 0)
  }

  /** The second loop of `findSrcRecursive`, from entry `i` on: the first result that is not `null`. */
  function SearchEntries(dir: Node, sourcePath: seq<string>, i: nat): (r: Search)
    requires dir.DirN? && i <= |dir.children|
    ensures r.Reader? ==> HoldsFile(dir, r.content)
    decreases dir, 0, |dir.children| - i
  {
    if i == |dir.children| then NoReader
    else if IsHidden(dir.children[i].name) then SearchEntries(dir, sourcePath, i + 1)
    else match FindSrcRecursive(dir.children[i], sourcePath)
      case NoReader => SearchEntries(dir, sourcePath, i + 1)
      case found => found
  }

  /**
   * `findSourceReader`: the host finder's file when it has one, else the file
   * the recursive search opens; `None` when the method throws.
   */
  function FindSourceReader(loc: Locator): (r: Option<Content>)
    ensures loc.host.Some? ==> r == loc.host
    ensures loc.host.None? ==>
              (r.Some? <==> FindSrcRecursive(loc.cwd, loc.sourcePath).Reader?)
              && (r.Some? ==> r.value == FindSrcRecursive(loc.cwd, loc.sourcePath).content)
    ensures loc.host.None? && r.Some? ==> HoldsFile(loc.cwd, r.value)
  {
    if loc.host.Some? then loc.host
    else match FindSrcRecursive(loc.cwd, loc.sourcePath)
      case Reader(content) => Some(content)
      case NoReader => None
      case Raised => None
  }

  // ---------------------------------------------------------------------------
  // Properties of the search
  // ---------------------------------------------------------------------------

  /** An empty or unlistable directory (a file, here) yields no reader. */
  lemma EmptyListingFindsNothing(dir: Node, sourcePath: seq<string>)
    requires Listing(dir) == []
    ensures FindSrcRecursive(dir, sourcePath) == NoReader
  {
  }

  /**
   * The probe under a `src` entry opens exactly `src/main/java/<source path>`.
   */
  lemma {:induction false} ProbeIsConventionalPath(src: Node, sourcePath: seq<string>)
    ensures SearchSrcForSLA(src, sourcePath) == Open(Resolve(src, ["main", "java"] + sourcePath))
  {
  }

  /**
   * Once a level lists an entry named `src`, the answer is that entry's probe,
   * whatever the other entries of the level hold.
   */
  lemma SrcCommitment(dir: Node, sourcePath: seq<string>, k: nat)
    requires k < |Listing(dir)| && Listing(dir)[k].name == "src"
    requires forall j :: 0 <= j < k ==> Listing(dir)[j].name != "src"
    ensures FindSrcRecursive(dir, sourcePath) == SearchSrcForSLA(Listing(dir)[k], sourcePath)
  {
    var r := IndexOfName(Listing(dir), "src");
    assert r.Some? && r.value == k;
  }

  /** In particular a probe that misses is final: no sibling of that `src` is searched. */
  lemma SrcMissIsFinal(dir: Node, sourcePath: seq<string>, k: nat)
    requires k < |Listing(dir)| && Listing(dir)[k].name == "src"
    requires forall j :: 0 <= j < k ==> Listing(dir)[j].name != "src"
    requires SearchSrcForSLA(Listing(dir)[k], sourcePath) == NoReader
    ensures FindSrcRecursive(dir, sourcePath) == NoReader
  {
  }

  /** Entry `j` of `dir` is searched by the second loop: it is not hidden. */
  predicate Visited(dir: Node, j: int)
    requires dir.DirN? && 0 <= j < |dir.children|
  {
    !IsHidden(dir.children[j].name)
  }

  /** The second loop from entry `i` on gives `null` exactly when every non-hidden entry from `i` on does. */
  lemma {:induction false} SearchEntriesNull(dir: Node, sourcePath: seq<string>, i: nat)
    requires dir.DirN? && i <= |dir.children|
    ensures SearchEntries(dir, sourcePath, i) == NoReader <==>
              forall j :: i <= j < |dir.children| && Visited(dir, j) ==>
                FindSrcRecursive(dir.children[j], sourcePath) == NoReader
    decreases |dir.children| - i
  {
    if i < |dir.children| {
      SearchEntriesNull(dir, sourcePath, i + 1);
    }
  }

  /**
   * An answer other than `null` from entry `i` on is the answer of some
   * non-hidden entry `j`, and every non-hidden entry before `j` gave `null`.
   */
  lemma {:induction false} SearchEntriesFirstHit(dir: Node, sourcePath: seq<string>, i: nat)
    requires dir.DirN? && i <= |dir.children|
    requires SearchEntries(dir, sourcePath, i) != NoReader
    ensures exists j :: FirstHitAt(dir, sourcePath, i, j, SearchEntries(dir, sourcePath, i))
    decreases |dir.children| - i
  {
    var r := SearchEntries(dir, sourcePath, i);
    if !Visited(dir, i) || FindSrcRecursive(dir.children[i], sourcePath) == NoReader {
      SearchEntriesFirstHit(dir, sourcePath, i + 1);
      var j :| FirstHitAt(dir, sourcePath, i + 1, j, r);
      assert FirstHitAt(dir, sourcePath, i, j, r);
    } else {
      assert FirstHitAt(dir, sourcePath, i, i, r);
    }
  }

  /**
   * Entry `j` is the first non-hidden entry from `i` on whose search does not
   * give `null`, and its answer is `r`.
   */
  predicate FirstHitAt(dir: Node, sourcePath: seq<string>, i: nat, j: int, r: Search)
    requires dir.DirN?
  {
    i <= j < |dir.children| && Visited(dir, j)
    && r == FindSrcRecursive(dir.children[j], sourcePath)
    && forall l :: i <= l < j && Visited(dir, l) ==> FindSrcRecursive(dir.children[l], sourcePath) == NoReader
  }

  /**
   * Without a `src` entry, a non-empty level answers with the first non-`null`
   * answer of its non-hidden entries in listing order, and `null` when every
   * one of them gives `null`.
   */
  lemma RecursionFirstHit(dir: Node, sourcePath: seq<string>)
    requires Listing(dir) != []
    requires forall j :: 0 <= j < |Listing(dir)| ==> Listing(dir)[j].name != "src"
    ensures dir.DirN?
    ensures FindSrcRecursive(dir, sourcePath) == NoReader <==>
              forall j :: 0 <= j < |dir.children| && Visited(dir, j) ==>
                FindSrcRecursive(dir.children[j], sourcePath) == NoReader
    ensures FindSrcRecursive(dir, sourcePath) != NoReader ==>
              exists j :: FirstHitAt(dir, sourcePath, 0, j, FindSrcRecursive(dir, sourcePath))
  {
    assert IndexOfName(Listing(dir), "src").None?;
    SearchEntriesNull(dir, sourcePath, 0);
    if FindSrcRecursive(dir, sourcePath) != NoReader {
      SearchEntriesFirstHit(dir, sourcePath, 0);
    }
  }

  /** A hidden entry is never searched: replacing it changes nothing. */
  lemma {:induction false} HiddenEntriesIgnored(dir: Node, sourcePath: seq<string>, i: nat, j: nat, other: Node)
    requires dir.DirN? && i <= |dir.children| && j < |dir.children|
    requires IsHidden(dir.children[j].name) && IsHidden(other.name)
    ensures SearchEntries(DirN(dir.name, dir.children[j := other]), sourcePath, i) == SearchEntries(dir, sourcePath, i)
    decreases |dir.children| - i
  {
    var dir' := DirN(dir.name, dir.children[j := other]);
    if i < |dir.children| {
      HiddenEntriesIgnored(dir, sourcePath, i + 1, j, other);
      if i != j {
        assert dir'.children[i] == dir.children[i];
      }
    }
  }

  /**
   * The same for a whole level: replacing a hidden entry by another hidden
   * entry never changes what the search of the directory yields.
   */
  lemma HiddenEntryIgnoredAtLevel(dir: Node, sourcePath: seq<string>, j: nat, other: Node)
    requires dir.DirN? && j < |dir.children|
    requires IsHidden(dir.children[j].name) && IsHidden(other.name)
    ensures FindSrcRecursive(DirN(dir.name, dir.children[j := other]), sourcePath) == FindSrcRecursive(dir, sourcePath)
  {
    var dir' := DirN(dir.name, dir.children[j := other]);
    assert dir.children[j].name != "src" && other.name != "src";
    var r := IndexOfName(dir.children, "src");
    var r' := IndexOfName(dir'.children, "src");
    match r
    case Some(k) =>
      assert k != j;
      assert forall l :: 0 <= l < k ==> dir'.children[l].name != "src" by {
        forall l | 0 <= l < k ensures dir'.children[l].name != "src" {
          if l != j { assert dir'.children[l] == dir.children[l]; }
        }
      }
      assert dir'.children[k] == dir.children[k];
      SrcCommitment(dir', sourcePath, k);
    case None =>
      assert forall l :: 0 <= l < |dir'.children| ==> dir'.children[l].name != "src" by {
        forall l | 0 <= l < |dir'.children| ensures dir'.children[l].name != "src" {
          if l != j { assert dir'.children[l] == dir.children[l]; }
        }
      }
      assert r'.None?;
      HiddenEntriesIgnored(dir, sourcePath, 0, j, other);
  }

  // ---------------------------------------------------------------------------
  // Worked examples
  // ---------------------------------------------------------------------------

  /** `src/main/java/pkg/Foo.java` holding one line. */
  function MavenSrc(): Node {
    DirN("src", [DirN("main", [DirN("java", [DirN("pkg", [FileN("Foo.java", Text(["class Foo {}"]))])])])])
  }

  /** The probe inside a Maven layout finds the file. */
  lemma MavenProbeHits()
    ensures SearchSrcForSLA(MavenSrc(), ["pkg", "Foo.java"]) == Reader(Text(["class Foo {}"]))
  {
  }

  /** The host finder misses; `work/proj/src/main/java/pkg/Foo.java` is found by the recursive search. */
  lemma FallbackFindsMavenLayout()
    ensures FindSourceReader(Locator(None, DirN("work", [DirN(".git", []), DirN("proj", [FileN("pom.xml", Text([])), MavenSrc()])]),
                                     ["pkg", "Foo.java"]))
            == Some(Text(["class Foo {}"]))
  {
  }

  /**
   * A `src` with no Maven layout at the top level hides a good project beside
   * it: the first `src` of a level wins or fails for the whole level.
   */
  lemma FirstSrcWinsAtOneLevel()
    ensures FindSourceReader(Locator(None, DirN("work", [DirN("src", []), DirN("proj", [MavenSrc()])]),
                                     ["pkg", "Foo.java"]))
            == None
  {
  }

  /**
   * A miss under one project's `src` returns `null` to the level above, whose
   * loop goes on to the next project.
   */
  lemma MissInOneProjectFallsThrough()
    ensures FindSourceReader(Locator(None, DirN("work", [DirN("a", [DirN("src", [])]), DirN("b", [MavenSrc()])]),
                                     ["pkg", "Foo.java"]))
            == Some(Text(["class Foo {}"]))
  {
  }

  /** Project `a` of the two abort examples: its `src/main/java/pkg` holds `entries`. */
  function ProjectA(entries: seq<Node>): Node {
    DirN("a", [DirN("src", [DirN("main", [DirN("java", [DirN("pkg", entries)])])])])
  }

  /** The probe of project `a` for `pkg/Foo.java` opens the node in `pkg` called `Foo.java`. */
  lemma {:induction false} ProjectAProbe(entries: seq<Node>)
    ensures FindSrcRecursive(ProjectA(entries), ["pkg", "Foo.java"])
            == Open(FindFolderWithName(DirN("pkg", entries), "Foo.java"))
  {
    var path := ["pkg", "Foo.java"];
    var src := ProjectA(entries).children[0];
    var pkg := DirN("pkg", entries);
    SrcCommitment(ProjectA(entries), path, 0);
    ProbeIsConventionalPath(src, path);
    var full := ["main", "java"] + path;
    assert full[1..][1..] == path && full[1..][1..][1..] == ["Foo.java"] && full[1..][1..][1..][1..] == [];
    assert Resolve(src, full) == Resolve(pkg, ["Foo.java"]);
  }

  /**
   * A directory where the source file should be makes the open throw, and the
   * exception ends the whole search: the file in project `b` is never reached.
   */
  lemma DirectoryTargetAbortsSearch()
    ensures FindSourceReader(Locator(None, DirN("work", [ProjectA([DirN("Foo.java", [])]), DirN("b", [MavenSrc()])]),
                                     ["pkg", "Foo.java"]))
            == None
  {
    var work := DirN("work", [ProjectA([DirN("Foo.java", [])]), DirN("b", [MavenSrc()])]);
    ProjectAProbe([DirN("Foo.java", [])]);
    assert FindSrcRecursive(work.children[0], ["pkg", "Foo.java"]) == Raised;
    assert IndexOfName(work.children, "src").None?;
    assert SearchEntries(work, ["pkg", "Foo.java"], 0) == Raised;
  }

  /** The same tree with nothing at that place: the search goes on to project `b` and finds the file. */
  lemma MissingTargetSearchContinues()
    ensures FindSourceReader(Locator(None, DirN("work", [ProjectA([]), DirN("b", [MavenSrc()])]),
                                     ["pkg", "Foo.java"]))
            == Some(Text(["class Foo {}"]))
  {
    var work := DirN("work", [ProjectA([]), DirN("b", [MavenSrc()])]);
    ProjectAProbe([]);
    assert FindSrcRecursive(work.children[0], ["pkg", "Foo.java"]) == NoReader;
    MavenProbeHits();
    SrcCommitment(work.children[1], ["pkg", "Foo.java"], 0);
    assert IndexOfName(work.children, "src").None?;
    assert SearchEntries(work, ["pkg", "Foo.java"], 0) == SearchEntries(work, ["pkg", "Foo.java"], 1);
  }


}
