/**
  * Exclude rules and directory expansion (exclude.go).
  *
  * The glob matcher `doublestar.Match` is a foreign library; it is a parameter
  * here, a function giving the `(matched, error)` pair the library returns.
  * The filesystem seen by `filepath.WalkDir` is an in-memory tree whose
  * directory listings are in the order `os.ReadDir` returns them (by name).
  */
module Excludes {

  import opened Wrappers
  import opened Paths

  /** The pair `doublestar.Match(pattern, name)` returns: a match flag and whether the pattern was malformed. */
  datatype GlobResult = GlobResult(matched: bool, badPattern: bool)

  type Glob = (string, string) -> GlobResult

  /** An exclude file: a name and its glob patterns. */
  datatype ExcludeRule = ExcludeRule(name: string, patterns: seq<string>)

  /** `pattern` excludes `path` when it matches the full path or its last element. */
  predicate PatternExcludes(glob: Glob, pattern: string, path: string) {
    glob(pattern, path).matched || glob(pattern, Base(path)).matched
  }

  /** Some pattern of `patterns` excludes `path`. */
  predicate AnyPatternExcludes(patterns: seq<string>, glob: Glob, path: string) {
    patterns != [] && (PatternExcludes(glob, patterns[0], path) || AnyPatternExcludes(patterns[1..], glob, path))
  }

  /** What `ShouldExclude` decides: some pattern of the rule excludes `path`. */
  predicate Excludes(rule: ExcludeRule, glob: Glob, path: string) {
    AnyPatternExcludes(rule.patterns, glob, path)
  }

  /** `Excludes` is the existential over the rule's patterns. */
  lemma {:induction false} AnyPatternExcludesExists(patterns: seq<string>, glob: Glob, path: string)
    ensures AnyPatternExcludes(patterns, glob, path) <==>
      exists i :: 0 <= i < |patterns| && PatternExcludes(glob, patterns[i], path)
  {
    if patterns != [] {
      AnyPatternExcludesExists(patterns[1..], glob, path);
      if PatternExcludes(glob, patterns[0], path) {
      } else if AnyPatternExcludes(patterns[1..], glob, path) {
        var i :| 0 <= i < |patterns| - 1 && PatternExcludes(glob, patterns[1..][i], path);
        assert PatternExcludes(glob, patterns[i + 1], path);
      } else {
        forall i | 0 <= i < |patterns| ensures !PatternExcludes(glob, patterns[i], path) {
          if i > 0 {
            assert patterns[i] == patterns[1..][i - 1];
          }
        }
      }
    }
  }

  /** The rule in force during a walk may be absent (a nil `*ExcludeRule`). */
  predicate ExcludedBy(exclude: Option<ExcludeRule>, glob: Glob, path: string) {
    exclude.Some? && Excludes(exclude.value, glob, path)
  }

  /** `ExcludeRule.ShouldExclude`: tries each pattern on the full path, then on its base name. */
  method ShouldExclude(rule: ExcludeRule, glob: Glob, path: string) returns (excluded: bool)
    ensures excluded <==> exists i :: 0 <= i < |rule.patterns| && PatternExcludes(glob, rule.patterns[i], path)
    ensures excluded == Excludes(rule, glob, path)
    ensures rule.patterns == [] ==> !excluded
  {
    AnyPatternExcludesExists(rule.patterns, glob, path);
    var i := 0;
    while i < |rule.patterns|
      invariant 0 <= i <= |rule.patterns|
      invariant forall k :: 0 <= k < i ==> !PatternExcludes(glob, rule.patterns[k], path)
    {
      var pattern := rule.patterns[i];
      var full := glob(pattern, path);
      if full.matched {
        return true;
      }
      var base := glob(pattern, Base(path));
      if base.matched {
        return true;
      }
      i := i + 1;
    }
    return false;
  }

  /** A malformed pattern counts as a non-match: only the match flag is consulted. */
  lemma {:induction false} ErrorsIgnored(patterns: seq<string>, g1: Glob, g2: Glob, path: string)
    requires forall p, s :: g1(p, s).matched == g2(p, s).matched
    ensures AnyPatternExcludes(patterns, g1, path) <==> AnyPatternExcludes(patterns, g2, path)
  {
    if patterns != [] {
      ErrorsIgnored(patterns[1..], g1, g2, path);
    }
  }

  // ---------------------------------------------------------------------------
  // The directory tree and the walk.
  // ---------------------------------------------------------------------------

  /** An entry of a directory listing. `Unreadable` is a directory whose listing fails. */
  datatype Entry =
    | File(name: string)
    | Directory(name: string, children: seq<Entry>)
    | Unreadable(name: string)

  /** The files gathered by a walk, and whether it stopped on an error. */
  datatype Walked = Walked(files: seq<string>, failed: bool)

  /**
    * The walk of `filepath.WalkDir` with the tool's callback, from entry `e`
    * at `path`: an excluded directory is skipped whole (`SkipDir`), an
    * excluded file is passed over, any other file is gathered; the first
    * listing error ends the whole walk.
    */
  function WalkEntry(path: string, e: Entry, exclude: Option<ExcludeRule>, glob: Glob): Walked
    decreases e
  {
    if ExcludedBy(exclude, glob, path) then Walked([], false)
    else match e
      case File(_) => Walked([path], false)
      case Unreadable(_) => Walked([], true)
      case Directory(_, children) => WalkChildren(path, children, exclude, glob)
  }

  /** The walk over the listing `children` of the directory at `dir`, in listing order. */
  function WalkChildren(dir: string, children: seq<Entry>, exclude: Option<ExcludeRule>, glob: Glob): Walked
    decreases children
  {
    if children == [] then Walked([], false)
    else
      var first := WalkEntry(JoinPath(dir, children[0].name), children[0], exclude, glob);
      if first.failed then first
      else
        var rest := WalkChildren(dir, children[1..], exclude, glob);
        Walked(first.files + rest.files, rest.failed)
  }

  /** The whole expansion; `None` is a root that cannot be stat'ed. */
  function Expand(dir: string, root: Option<Entry>, exclude: Option<ExcludeRule>, glob: Glob): Walked {
    if root.None? then Walked([], true) else WalkEntry(dir, root.value, exclude, glob)
  }

  /**
    * `ExpandDirectory`: the files of the tree, filtered by the exclude rule.
    * On an error the files gathered so far come back together with the error.
    */
  method ExpandDirectory(dir: string, root: Option<Entry>, exclude: Option<ExcludeRule>, glob: Glob)
    returns (files: seq<string>, failed: bool)
    ensures Walked(files, failed) == Expand(dir, root, exclude, glob)
  {
    if root.None? {
      return [], true;
    }
    files, failed := Visit(dir, root.value, exclude, glob, []);
  }

  /** One callback invocation and, for a directory, the descent into its listing. */
  method Visit(path: string, e: Entry, exclude: Option<ExcludeRule>, glob: Glob, gathered: seq<string>)
    returns (files: seq<string>, failed: bool)
    ensures files == gathered + WalkEntry(path, e, exclude, glob).files
    ensures failed == WalkEntry(path, e, exclude, glob).failed
    decreases e
  {
    var skip := false;
    if exclude.Some? {
      skip := ShouldExclude(exclude.value, glob, path);
    }
    if skip {
      return gathered, false;
    }
    match e {
      case File(_) =>
        return gathered + [path], false;
      case Unreadable(_) =>
        return gathered, true;
      case Directory(_, children) =>
        files, failed := VisitListing(path, children, exclude, glob, gathered);
    }
  }

  /**
    * The descent into a directory listing, entry by entry in listing order;
    * the first failing entry ends it (the loop inside `filepath.WalkDir`).
    */
  method VisitListing(dir: string, children: seq<Entry>, exclude: Option<ExcludeRule>, glob: Glob, gathered: seq<string>)
    returns (files: seq<string>, failed: bool)
    ensures files == gathered + WalkChildren(dir, children, exclude, glob).files
    ensures failed == WalkChildren(dir, children, exclude, glob).failed
    decreases children
  {
    if children == [] {
      return gathered, false;
    }
    var child := children[0];
    ChildrenStep(dir, children, exclude, glob);
    files, failed := Visit(JoinPath(dir, child.name), child, exclude, glob, gathered);
    if failed {
      return;
    }
    ghost var afterFirst := files;
    files, failed := VisitListing(dir, children[1..], exclude, glob, files);
    AppendAssoc(gathered, afterFirst[|gathered|..], WalkChildren(dir, children[1..], exclude, glob).files);
  }

  /** The first entry's walk, then the rest of the listing unless the first failed. */
  lemma ChildrenStep(dir: string, children: seq<Entry>, exclude: Option<ExcludeRule>, glob: Glob)
    requires children != []
    ensures var first := WalkEntry(JoinPath(dir, children[0].name), children[0], exclude, glob);
      var rest := WalkChildren(dir, children[1..], exclude, glob);
      WalkChildren(dir, children, exclude, glob) == if first.failed then first else Walked(first.files + rest.files, rest.failed)
  {
  }

  lemma AppendAssoc(a: seq<string>, b: seq<string>, c: seq<string>)
    ensures a + (b + c) == (a + b) + c
  {
  }

  // ---------------------------------------------------------------------------
  // An independent description of the result: every file of the tree with the
  // directories above it, kept when neither it nor any of them is excluded.
  // ---------------------------------------------------------------------------

  /** A file of the tree and the paths of the directories it sits in, outermost first. */
  datatype Located = Located(path: string, dirs: seq<string>)

  /** All files of the tree in walk order (an unreadable directory shows none). */
  function AllFiles(path: string, e: Entry, above: seq<string>): seq<Located>
    decreases e
  {
    match e
    case File(_) => [Located(path, above)]
    case Unreadable(_) => []
    case Directory(_, children) => AllChildrenFiles(path, children, above + [path])
  }

  function AllChildrenFiles(dir: string, children: seq<Entry>, above: seq<string>): seq<Located>
    decreases children
  {
    if children == [] then []
    else
      AllFiles(JoinPath(dir, children[0].name), children[0], above)
      + AllChildrenFiles(dir, children[1..], above)
  }

  predicate Visible(f: Located, exclude: Option<ExcludeRule>, glob: Glob) {
    !ExcludedBy(exclude, glob, f.path) && forall k :: 0 <= k < |f.dirs| ==> !ExcludedBy(exclude, glob, f.dirs[k])
  }

  /** The paths of the visible files, in order. */
  function VisiblePaths(fs: seq<Located>, exclude: Option<ExcludeRule>, glob: Glob): seq<string> {
    if fs == [] then []
    else (if Visible(fs[0], exclude, glob) then [fs[0].path] else []) + VisiblePaths(fs[1..], exclude, glob)
  }

  lemma {:induction false} VisiblePathsConcat(a: seq<Located>, b: seq<Located>, exclude: Option<ExcludeRule>, glob: Glob)
    ensures VisiblePaths(a + b, exclude, glob) == VisiblePaths(a, exclude, glob) + VisiblePaths(b, exclude, glob)
  {
    if a == [] {
      assert a + b == b;
    } else {
      assert (a + b)[1..] == a[1..] + b;
      VisiblePathsConcat(a[1..], b, exclude, glob);
    }
  }

  /** No directory of the tree fails to list. */
  predicate Readable(e: Entry) {
    match e
    case File(_) => true
    case Unreadable(_) => false
    case Directory(_, children) => forall k :: 0 <= k < |children| ==> Readable(children[k])
  }

  /** Every file found under `above` lists `above` first among its directories. */
  lemma {:induction false} AllFilesUnder(path: string, e: Entry, above: seq<string>)
    ensures forall k :: 0 <= k < |AllFiles(path, e, above)| ==> above <= AllFiles(path, e, above)[k].dirs
    decreases e
  {
    match e
    case File(_) =>
    case Unreadable(_) =>
    case Directory(_, children) => AllChildrenFilesUnder(path, children, above + [path]);
  }

  lemma {:induction false} AllChildrenFilesUnder(dir: string, children: seq<Entry>, above: seq<string>)
    ensures forall k :: 0 <= k < |AllChildrenFiles(dir, children, above)| ==> above <= AllChildrenFiles(dir, children, above)[k].dirs
    decreases children
  {
    if children != [] {
      AllFilesUnder(JoinPath(dir, children[0].name), children[0], above);
      AllChildrenFilesUnder(dir, children[1..], above);
    }
  }

  /** Files below an excluded directory are never visible. */
  lemma {:induction false} NoneVisibleUnder(fs: seq<Located>, d: string, above: seq<string>, exclude: Option<ExcludeRule>, glob: Glob)
    requires ExcludedBy(exclude, glob, d)
    requires forall k :: 0 <= k < |fs| ==> above + [d] <= fs[k].dirs
    ensures VisiblePaths(fs, exclude, glob) == []
  {
    if fs != [] {
      assert fs[0].dirs[|above|] == d;
      NoneVisibleUnder(fs[1..], d, above, exclude, glob);
    }
  }

  /**
    * The walk gathers a prefix of the visible files, in walk order, and all of
    * them when it does not fail. Here `above` are the directories already
    * entered, none of them excluded.
    */
  lemma {:induction false} WalkIsVisiblePrefix(path: string, e: Entry, above: seq<string>, exclude: Option<ExcludeRule>, glob: Glob)
    requires forall k :: 0 <= k < |above| ==> !ExcludedBy(exclude, glob, above[k])
    ensures WalkEntry(path, e, exclude, glob).files <= VisiblePaths(AllFiles(path, e, above), exclude, glob)
    ensures !WalkEntry(path, e, exclude, glob).failed ==>
      WalkEntry(path, e, exclude, glob).files == VisiblePaths(AllFiles(path, e, above), exclude, glob)
    decreases e
  {
    match e
    case File(_) =>
    case Unreadable(_) =>
    case Directory(_, children) =>
      if ExcludedBy(exclude, glob, path) {
        AllChildrenFilesUnder(path, children, above + [path]);
        assert AllFiles(path, e, above) == AllChildrenFiles(path, children, above + [path]);
        NoneVisibleUnder(AllFiles(path, e, above), path, above, exclude, glob);
      } else {
        WalkChildrenIsVisiblePrefix(path, children, above + [path], exclude, glob);
      }
  }

  lemma {:induction false} WalkChildrenIsVisiblePrefix(dir: string, children: seq<Entry>, above: seq<string>, exclude: Option<ExcludeRule>, glob: Glob)
    requires forall k :: 0 <= k < |above| ==> !ExcludedBy(exclude, glob, above[k])
    ensures WalkChildren(dir, children, exclude, glob).files <= VisiblePaths(AllChildrenFiles(dir, children, above), exclude, glob)
    ensures !WalkChildren(dir, children, exclude, glob).failed ==>
      WalkChildren(dir, children, exclude, glob).files == VisiblePaths(AllChildrenFiles(dir, children, above), exclude, glob)
    decreases children
  {
    if children != [] {
      var childPath := JoinPath(dir, children[0].name);
      var a := AllFiles(childPath, children[0], above);
      var b := AllChildrenFiles(dir, children[1..], above);
      WalkIsVisiblePrefix(childPath, children[0], above, exclude, glob);
      WalkChildrenIsVisiblePrefix(dir, children[1..], above, exclude, glob);
      VisiblePathsConcat(a, b, exclude, glob);
    }
  }

  /** A tree whose directories all list never makes the walk fail. */
  lemma {:induction false} ReadableWalkSucceeds(path: string, e: Entry, exclude: Option<ExcludeRule>, glob: Glob)
    requires Readable(e)
    ensures !WalkEntry(path, e, exclude, glob).failed
    decreases e
  {
    match e
    case File(_) =>
    case Unreadable(_) =>
    case Directory(_, children) => ReadableChildrenSucceed(path, children, exclude, glob);
  }

  lemma {:induction false} ReadableChildrenSucceed(dir: string, children: seq<Entry>, exclude: Option<ExcludeRule>, glob: Glob)
    requires forall k :: 0 <= k < |children| ==> Readable(children[k])
    ensures !WalkChildren(dir, children, exclude, glob).failed
    decreases children
  {
    if children != [] {
      ReadableWalkSucceeds(JoinPath(dir, children[0].name), children[0], exclude, glob);
      ReadableChildrenSucceed(dir, children[1..], exclude, glob);
    }
  }

  /**
    * On a readable tree the expansion is exactly the visible files in walk
    * order: a file is in the result, once per place in the tree, iff neither it
    * nor any directory above it (the root included) is excluded.
    */
  lemma ExpandIsVisibleFiles(dir: string, root: Entry, exclude: Option<ExcludeRule>, glob: Glob)
    requires Readable(root)
    ensures Expand(dir, Some(root), exclude, glob) == Walked(VisiblePaths(AllFiles(dir, root, []), exclude, glob), false)
  {
    ReadableWalkSucceeds(dir, root, exclude, glob);
    WalkIsVisiblePrefix(dir, root, [], exclude, glob);
  }

  /** Every path the expansion returns is a file that the rule does not exclude. */
  lemma ExpandedNotExcluded(dir: string, root: Entry, exclude: Option<ExcludeRule>, glob: Glob)
    ensures forall p :: p in Expand(dir, Some(root), exclude, glob).files ==> !ExcludedBy(exclude, glob, p)
  {
    WalkIsVisiblePrefix(dir, root, [], exclude, glob);
    var fs := AllFiles(dir, root, []);
    VisiblePathsAreVisible(fs, exclude, glob);
    var got := Expand(dir, Some(root), exclude, glob).files;
    forall p | p in got ensures !ExcludedBy(exclude, glob, p) {
      var k :| 0 <= k < |got| && got[k] == p;
      assert VisiblePaths(fs, exclude, glob)[k] == p;
    }
  }

  lemma {:induction false} VisiblePathsAreVisible(fs: seq<Located>, exclude: Option<ExcludeRule>, glob: Glob)
    ensures forall p :: p in VisiblePaths(fs, exclude, glob) ==> !ExcludedBy(exclude, glob, p)
  {
    if fs != [] {
      VisiblePathsAreVisible(fs[1..], exclude, glob);
    }
  }

  /** An excluded root gives nothing back and no error, even when it cannot be listed. */
  lemma ExcludedRootIsEmpty(dir: string, root: Entry, rule: ExcludeRule, glob: Glob)
    requires Excludes(rule, glob, dir)
    ensures Expand(dir, Some(root), Some(rule), glob) == Walked([], false)
  {
  }

  /** Without a rule, a readable tree expands to every one of its files. */
  lemma {:induction false} NoRuleKeepsEverything(fs: seq<Located>, glob: Glob)
    ensures VisiblePaths(fs, None, glob) == seq(|fs|, k requires 0 <= k < |fs| => fs[k].path)
  {
    if fs != [] {
      NoRuleKeepsEverything(fs[1..], glob);
    }
  }
}
