/**
  * The file and folder rows of the view (main.go): how a context path becomes
  * a `FileInfo` (`buildFileInfo`), and how the rows are grouped by parent
  * directory into `FolderInfo`s (`refreshFolders`). `os.Stat` and
  * `os.UserHomeDir` are parameters.
  */
module Files {

  import opened Strings
  import opened Sorting
  import opened Paths
  import opened Wrappers

  /** What `os.Stat` reports about a path that exists. */
  datatype Stat = Stat(size: nat, isDir: bool)

  datatype FileInfo = FileInfo(
    path: string,
    project: string,
    relPath: string,
    size: nat,
    present: bool,
    selected: bool)

  datatype FolderInfo = FolderInfo(path: string, fileCount: nat, totalSize: nat, selected: bool)

  // ---------------------------------------------------------------------------
  // buildFileInfo
  // ---------------------------------------------------------------------------

  /** The path with the home directory and its '/' taken off when it lies in it. */
  function HomeRelative(path: string, home: string): string {
    if HasPrefix(path, home) then TrimPrefix(path, home + "/") else path
  }

  /** The path under home is what is left of it once "home/" is taken off; any other path is kept whole. */
  lemma HomeRelativeRoundTrip(path: string, home: string)
    ensures HasPrefix(path, home + "/") ==> home + "/" + HomeRelative(path, home) == path
    ensures !HasPrefix(path, home + "/") ==> HomeRelative(path, home) == path
  {
    if HasPrefix(path, home + "/") {
      assert HasPrefix(path, home) by {
        assert path[..|home|] == (home + "/")[..|home|];
      }
    }
  }

  /** The index of the first part that is not a skip prefix, from `from` on; 0 when all are. */
  function FirstUnskipped(parts: seq<string>, skip: seq<string>, from: nat): (i: nat)
    requires from <= |parts|
    ensures i == 0 || from <= i < |parts|
    ensures i != 0 ==> parts[i] !in skip && forall k :: from <= k < i ==> parts[k] in skip
    ensures i == 0 ==> (from == 0 && 0 < |parts| && parts[0] !in skip) || forall k :: from <= k < |parts| ==> parts[k] in skip
    decreases |parts| - from
  {
    if from == |parts| then 0
    else if parts[from] !in skip then from
    else FirstUnskipped(parts, skip, from + 1)
  }

  /** Which part of the path names the project: the first one not in `skip`, or the first part. */
  function ProjectIndex(parts: seq<string>, skip: seq<string>): (i: nat)
    requires |parts| >= 1
    ensures i < |parts|
    ensures parts[i] !in skip ==> forall k :: 0 <= k < i ==> parts[k] in skip
    ensures parts[i] in skip ==> i == 0 && forall k :: 0 <= k < |parts| ==> parts[k] in skip
  {
    FirstUnskipped(parts, skip, 0)
  }

  /** The row `buildFileInfo` makes for `path`; `stat` is what `os.Stat(path)` reported. */
  function FileInfoOf(path: string, home: string, stat: Option<Stat>, skip: seq<string>): FileInfo {
    var parts := Split(HomeRelative(path, home), '/');
    var i := ProjectIndex(parts, skip);
    FileInfo(path, parts[i], Join(parts[i + 1..], '/'),
             if stat.Some? then stat.value.size else 0, stat.Some?, false)
  }

  /**
    * `buildFileInfo`: stats the path, strips the home directory, then scans the
    * '/'-separated parts for the first one that is not a skip prefix.
    */
  method BuildFileInfo(path: string, home: string, stat: Option<Stat>, skip: seq<string>) returns (info: FileInfo)
    ensures info == FileInfoOf(path, home, stat, skip)
    ensures info.path == path && !info.selected
    ensures info.present <==> stat.Some?
    ensures !info.present ==> info.size == 0
  {
    info := FileInfo(path, "", "", 0, true, false);
    if stat.None? {
      info := info.(present := false, size := 0);
    } else {
      info := info.(size := stat.value.size);
    }
    var relPath := path;
    if HasPrefix(path, home) {
      relPath := TrimPrefix(path, home + "/");
    }
    var parts := Split(relPath, '/');
    var projectIdx := 0;
    var i := 0;
    while i < |parts|
      invariant 0 <= i <= |parts|
      invariant projectIdx == 0
      invariant forall k :: 0 <= k < i ==> parts[k] in skip
    {
      var skipped := IsSkipPrefix(parts[i], skip);
      if !skipped {
        projectIdx := i;
        break;
      }
      i := i + 1;
    }
    assert projectIdx == ProjectIndex(parts, skip) by {
      if i < |parts| {
        assert FirstUnskipped(parts, skip, 0) == i by {
          FirstUnskippedAt(parts, skip, 0, i);
        }
      }
    }
    info := info.(project := parts[projectIdx]);
    if projectIdx + 1 < |parts| {
      info := info.(relPath := Join(parts[projectIdx + 1..], '/'));
    } else {
      info := info.(relPath := "");
    }
  }

  /** The inner loop of `buildFileInfo`: is `part` one of the skip prefixes? */
  method IsSkipPrefix(part: string, skip: seq<string>) returns (skipped: bool)
    ensures skipped <==> part in skip
  {
    skipped := false;
    var j := 0;
    while j < |skip|
      invariant 0 <= j <= |skip|
      invariant part !in skip[..j]
    {
      if part == skip[j] {
        return true;
      }
      assert skip[..j + 1] == skip[..j] + [skip[j]];
      j := j + 1;
    }
    assert skip[..j] == skip;
  }

  /** The scan stops at the first part that is not skipped. */
  lemma {:induction false} FirstUnskippedAt(parts: seq<string>, skip: seq<string>, from: nat, i: nat)
    requires from <= i < |parts|
    requires forall k :: from <= k < i ==> parts[k] in skip
    requires parts[i] !in skip
    ensures FirstUnskipped(parts, skip, from) == i
    decreases i - from
  {
    if from < i {
      FirstUnskippedAt(parts, skip, from + 1, i);
    }
  }

  /**
    * Nothing of the path is lost: the skipped parts, the project and the
    * relative path, joined by '/', give back the path below the home directory.
    */
  lemma FileInfoSplitIsLossless(path: string, home: string, stat: Option<Stat>, skip: seq<string>)
    ensures var parts := Split(HomeRelative(path, home), '/');
      var i := ProjectIndex(parts, skip);
      var info := FileInfoOf(path, home, stat, skip);
      && info.project == parts[i] && '/' !in info.project
      && Join(parts[..i + 1], '/') + (if i + 1 < |parts| then "/" + info.relPath else "") == HomeRelative(path, home)
  {
    var rel := HomeRelative(path, home);
    var parts := Split(rel, '/');
    var i := ProjectIndex(parts, skip);
    var info := FileInfoOf(path, home, stat, skip);
    assert info.project == parts[i] && info.relPath == Join(parts[i + 1..], '/');
    JoinSplit(rel, '/');
    JoinAroundPart(parts, i);
  }

  /** Joining the parts up to `i`, then '/' and the rest when there is a rest, is joining them all. */
  lemma JoinAroundPart(parts: seq<string>, i: nat)
    requires i < |parts|
    ensures Join(parts[..i + 1], '/') + (if i + 1 < |parts| then "/" + Join(parts[i + 1..], '/') else "")
      == Join(parts, '/')
  {
    if i + 1 < |parts| {
      JoinAt(parts, i + 1, '/');
    } else {
      assert parts[..i + 1] == parts;
    }
  }

  // ---------------------------------------------------------------------------
  // refreshFiles: the order of the rows.
  // ---------------------------------------------------------------------------

  /** The rows of a list of paths, before sorting. */
  function Infos(paths: seq<string>, home: string, stat: string -> Option<Stat>, skip: seq<string>): (r: seq<FileInfo>)
    ensures |r| == |paths|
    ensures forall i :: 0 <= i < |paths| ==> r[i] == FileInfoOf(paths[i], home, stat(paths[i]), skip)
  {
    seq(|paths|, i requires 0 <= i < |paths| => FileInfoOf(paths[i], home, stat(paths[i]), skip))
  }

  /** `refreshFiles`'s order: larger files first. */
  predicate LargerOrSame(a: FileInfo, b: FileInfo) {
    a.size >= b.size
  }

  lemma LargerFirstIsTotal()
    ensures TotalPreorder(LargerOrSame)
  {
  }

  /** The paths of the rows, in row order. */
  function PathsOf(files: seq<FileInfo>): (r: seq<string>)
    ensures |r| == |files| && forall i :: 0 <= i < |files| ==> r[i] == files[i].path
  {
    seq(|files|, i requires 0 <= i < |files| => files[i].path)
  }

  /** Sum of the row sizes (`totalSize`). */
  function TotalSize(files: seq<FileInfo>): nat {
    if files == [] then 0 else TotalSize(files[..|files| - 1]) + files[|files| - 1].size
  }

  // ---------------------------------------------------------------------------
  // refreshFolders
  // ---------------------------------------------------------------------------

  function One(f: FileInfo): nat {
    1
  }

  function SizeOf(f: FileInfo): nat {
    f.size
  }

  /** The sum of `w` over the rows whose parent directory is `dir`. */
  function WeightIn(files: seq<FileInfo>, dir: string, w: FileInfo -> nat): nat {
    if files == [] then 0
    else
      var last := files[|files| - 1];
      WeightIn(files[..|files| - 1], dir, w) + (if Dir(last.path) == dir then w(last) else 0)
  }

  /** The sum of `w` over all rows. */
  function Weight(files: seq<FileInfo>, w: FileInfo -> nat): nat {
    if files == [] then 0 else Weight(files[..|files| - 1], w) + w(files[|files| - 1])
  }

  /** The parent directories of the rows. */
  function DirsOf(files: seq<FileInfo>): set<string> {
    set f | f in files :: Dir(f.path)
  }

  /** The folder row of `dir`: how many rows and bytes it holds; never selected. */
  predicate IsFolderOf(files: seq<FileInfo>, folder: FolderInfo) {
    folder == FolderInfo(folder.path, WeightIn(files, folder.path, One), WeightIn(files, folder.path, SizeOf), false)
  }

  /** The folder rows of `files`: one per parent directory, in strictly increasing path order. */
  predicate FoldersDescribe(folders: seq<FolderInfo>, files: seq<FileInfo>) {
    && (forall i, j :: 0 <= i < j < |folders| ==> Less(folders[i].path, folders[j].path))
    && (forall i :: 0 <= i < |folders| ==> IsFolderOf(files, folders[i]))
    && (forall i :: 0 <= i < |folders| ==> folders[i].path in DirsOf(files))
    && (forall f :: f in files ==> exists i :: 0 <= i < |folders| && folders[i].path == Dir(f.path))
  }

  /** The map `refreshFolders` fills, after the rows `files`. */
  predicate GroupedSoFar(folderMap: map<string, FolderInfo>, files: seq<FileInfo>) {
    && folderMap.Keys == DirsOf(files)
    && forall d :: d in folderMap ==>
         folderMap[d] == FolderInfo(d, WeightIn(files, d, One), WeightIn(files, d, SizeOf), false)
  }

  /** The map after one more row: its directory's count and size grow, or it gets a folder of its own. */
  function AddRow(folderMap: map<string, FolderInfo>, f: FileInfo): map<string, FolderInfo> {
    var dir := Dir(f.path);
    if dir in folderMap then
      folderMap[dir := folderMap[dir].(fileCount := folderMap[dir].fileCount + 1,
                                       totalSize := folderMap[dir].totalSize + f.size)]
    else folderMap[dir := FolderInfo(dir, 1, f.size, false)]
  }

  lemma WeightInSnoc(files: seq<FileInfo>, f: FileInfo, d: string, w: FileInfo -> nat)
    ensures WeightIn(files + [f], d, w) == WeightIn(files, d, w) + (if Dir(f.path) == d then w(f) else 0)
  {
    assert (files + [f])[..|files + [f]| - 1] == files;
  }

  lemma GroupStep(folderMap: map<string, FolderInfo>, files: seq<FileInfo>, f: FileInfo)
    requires GroupedSoFar(folderMap, files)
    ensures GroupedSoFar(AddRow(folderMap, f), files + [f])
  {
    var m' := AddRow(folderMap, f);
    DirsOfSnoc(files, f);
    forall d | d in m'
      ensures m'[d] == FolderInfo(d, WeightIn(files + [f], d, One), WeightIn(files + [f], d, SizeOf), false)
    {
      GroupStepAt(folderMap, files, f, d);
    }
  }

  lemma DirsOfSnoc(files: seq<FileInfo>, f: FileInfo)
    ensures DirsOf(files + [f]) == DirsOf(files) + {Dir(f.path)}
  {
    assert forall g :: g in files + [f] <==> g in files || g == f;
  }

  lemma GroupStepAt(folderMap: map<string, FolderInfo>, files: seq<FileInfo>, f: FileInfo, d: string)
    requires GroupedSoFar(folderMap, files)
    requires d in AddRow(folderMap, f)
    ensures AddRow(folderMap, f)[d] == FolderInfo(d, WeightIn(files + [f], d, One), WeightIn(files + [f], d, SizeOf), false)
  {
    WeightInSnoc(files, f, d, One);
    WeightInSnoc(files, f, d, SizeOf);
    if d == Dir(f.path) && d !in folderMap {
      WeightInAbsent(files, d, One);
      WeightInAbsent(files, d, SizeOf);
    }
  }

  lemma {:induction false} WeightInAbsent(files: seq<FileInfo>, d: string, w: FileInfo -> nat)
    requires d !in DirsOf(files)
    ensures WeightIn(files, d, w) == 0
  {
    if files != [] {
      var init := files[..|files| - 1];
      assert DirsOf(init) <= DirsOf(files) by {
        forall x | x in DirsOf(init) ensures x in DirsOf(files) {
          var g :| g in init && Dir(g.path) == x;
          assert g in files;
        }
      }
      assert files[|files| - 1] in files;
      WeightInAbsent(init, d, w);
    }
  }

  /** One step of the first loop of `refreshFolders`: bump the row's folder or start it. */
  method CountRow(folderMap: map<string, FolderInfo>, f: FileInfo) returns (next: map<string, FolderInfo>)
    ensures next == AddRow(folderMap, f)
  {
    var dir := Dir(f.path);
    if dir in folderMap {
      var folder := folderMap[dir];
      next := folderMap[dir := folder.(fileCount := folder.fileCount + 1, totalSize := folder.totalSize + f.size)];
    } else {
      next := folderMap[dir := FolderInfo(dir, 1, f.size, false)];
    }
  }

  /** The first loop of `refreshFolders`: count and sum the rows per parent directory. */
  method GroupByDir(files: seq<FileInfo>) returns (folderMap: map<string, FolderInfo>)
    ensures GroupedSoFar(folderMap, files)
  {
    folderMap := map[];
    var i := 0;
    while i < |files|
      invariant 0 <= i <= |files|
      invariant GroupedSoFar(folderMap, files[..i])
    {
      GroupStep(folderMap, files[..i], files[i]);
      assert files[..i + 1] == files[..i] + [files[i]];
      folderMap := CountRow(folderMap, files[i]);
      i := i + 1;
    }
    assert files[..i] == files;
  }

  /** The second loop of `refreshFolders`: the map's folders, in whatever order the map yields them. */
  method MapValues(folderMap: map<string, FolderInfo>) returns (list: seq<FolderInfo>)
    requires forall d :: d in folderMap ==> folderMap[d].path == d
    ensures forall i :: 0 <= i < |list| ==> list[i].path in folderMap && list[i] == folderMap[list[i].path]
    ensures forall d :: d in folderMap ==> exists i :: 0 <= i < |list| && list[i].path == d
    ensures Distinct(list)
  {
    list := [];
    var keys := folderMap.Keys;
    while keys != {}
      invariant ListedSoFar(folderMap, keys, list)
      decreases |keys|
    {
      var k :| k in keys;
      ListOneMore(folderMap, keys, list, k);
      list := list + [folderMap[k]];
      keys := keys - {k};
    }
  }

  /** The loop invariant of `MapValues`: the listed folders and the keys still to visit split the map. */
  ghost predicate ListedSoFar(folderMap: map<string, FolderInfo>, keys: set<string>, list: seq<FolderInfo>) {
    && keys <= folderMap.Keys
    && (forall i :: 0 <= i < |list| ==> list[i].path in folderMap && list[i] == folderMap[list[i].path])
    && (forall i :: 0 <= i < |list| ==> list[i].path !in keys)
    && (forall d :: d in folderMap ==> d in keys || exists i :: 0 <= i < |list| && list[i].path == d)
    && Distinct(list)
  }

  /** Listing the folder of one more unvisited key keeps the split. */
  lemma ListOneMore(folderMap: map<string, FolderInfo>, keys: set<string>, list: seq<FolderInfo>, k: string)
    requires forall d :: d in folderMap ==> folderMap[d].path == d
    requires ListedSoFar(folderMap, keys, list) && k in keys
    ensures ListedSoFar(folderMap, keys - {k}, list + [folderMap[k]])
  {
    var next := list + [folderMap[k]];
    assert forall i :: 0 <= i < |list| ==> next[i] == list[i];
    assert folderMap[k] !in list;
    forall d | d in folderMap && d !in keys - {k}
      ensures exists i :: 0 <= i < |next| && next[i].path == d
    {
      if d == k {
        assert next[|list|].path == d;
      } else {
        var i :| 0 <= i < |list| && list[i].path == d;
        assert next[i].path == d;
      }
    }
  }

  /** `refreshFolders`' sort key. */
  predicate PathOrder(a: FolderInfo, b: FolderInfo) {
    LessEq(a.path, b.path)
  }

  lemma PathOrderIsTotal()
    ensures TotalPreorder(PathOrder)
  {
    StringOrder();
  }

  /** `refreshFolders`: group, list, sort by path. */
  method RefreshFolders(files: seq<FileInfo>) returns (folders: seq<FolderInfo>)
    ensures FoldersDescribe(folders, files)
  {
    var folderMap := GroupByDir(files);
    var list := MapValues(folderMap);
    PathOrderIsTotal();
    folders := Sort(list, PathOrder);
    SortedFolders(folderMap, files, list, folders);
  }

  lemma SortedFolders(folderMap: map<string, FolderInfo>, files: seq<FileInfo>, list: seq<FolderInfo>, folders: seq<FolderInfo>)
    requires GroupedSoFar(folderMap, files)
    requires forall i :: 0 <= i < |list| ==> list[i].path in folderMap && list[i] == folderMap[list[i].path]
    requires forall d :: d in folderMap ==> exists i :: 0 <= i < |list| && list[i].path == d
    requires Distinct(list)
    requires SortedBy(folders, PathOrder) && multiset(folders) == multiset(list)
    ensures FoldersDescribe(folders, files)
  {
    SortedFoldersAscend(list, folders);
    forall i | 0 <= i < |folders|
      ensures IsFolderOf(files, folders[i]) && folders[i].path in DirsOf(files)
    {
      assert folders[i] in multiset(list);
      var k :| 0 <= k < |list| && list[k] == folders[i];
    }
    forall f | f in files ensures exists i :: 0 <= i < |folders| && folders[i].path == Dir(f.path) {
      var d := Dir(f.path);
      assert d in DirsOf(files);
      var k :| 0 <= k < |list| && list[k].path == d;
      assert list[k] in multiset(folders);
      var i :| 0 <= i < |folders| && folders[i] == list[k];
    }
  }

  /** Sorting distinct folders whose paths identify them leaves the paths strictly ascending. */
  lemma SortedFoldersAscend(list: seq<FolderInfo>, folders: seq<FolderInfo>)
    requires forall i, j :: 0 <= i < |list| && 0 <= j < |list| && list[i].path == list[j].path ==> list[i] == list[j]
    requires Distinct(list)
    requires SortedBy(folders, PathOrder) && multiset(folders) == multiset(list)
    ensures forall i, j :: 0 <= i < j < |folders| ==> Less(folders[i].path, folders[j].path)
  {
    PermutationDistinct(list, folders);
    forall i, j | 0 <= i < j < |folders| ensures Less(folders[i].path, folders[j].path) {
      assert folders[i] in multiset(list) && folders[j] in multiset(list);
      var a :| 0 <= a < |list| && list[a] == folders[i];
      var b :| 0 <= b < |list| && list[b] == folders[j];
      assert folders[i] != folders[j];
      assert folders[i].path != folders[j].path;
      assert PathOrder(folders[i], folders[j]);
    }
  }

  // ---------------------------------------------------------------------------
  // The folder totals add up.
  // ---------------------------------------------------------------------------

  function FolderCounts(folders: seq<FolderInfo>): nat {
    if folders == [] then 0 else FolderCounts(folders[..|folders| - 1]) + folders[|folders| - 1].fileCount
  }

  function FolderSizes(folders: seq<FolderInfo>): nat {
    if folders == [] then 0 else FolderSizes(folders[..|folders| - 1]) + folders[|folders| - 1].totalSize
  }

  /** Sum over the directories `ds` of the weight each holds. */
  function Over(ds: seq<string>, files: seq<FileInfo>, w: FileInfo -> nat): nat {
    if ds == [] then 0 else Over(ds[..|ds| - 1], files, w) + WeightIn(files, ds[|ds| - 1], w)
  }

  /** `v` for every occurrence of `x` in `ds`. */
  function Hits(ds: seq<string>, x: string, v: nat): nat {
    if ds == [] then 0 else Hits(ds[..|ds| - 1], x, v) + (if ds[|ds| - 1] == x then v else 0)
  }

  lemma {:induction false} HitsOnce(ds: seq<string>, x: string, v: nat)
    requires Distinct(ds) && x in ds
    ensures Hits(ds, x, v) == v
  {
    var init := ds[..|ds| - 1];
    if ds[|ds| - 1] == x {
      HitsNone(init, x, v);
    } else {
      assert x in init;
      HitsOnce(init, x, v);
    }
  }

  lemma {:induction false} HitsNone(ds: seq<string>, x: string, v: nat)
    requires x !in ds
    ensures Hits(ds, x, v) == 0
  {
    if ds != [] {
      HitsNone(ds[..|ds| - 1], x, v);
    }
  }

  lemma {:induction false} OverEmpty(ds: seq<string>, w: FileInfo -> nat)
    ensures Over(ds, [], w) == 0
  {
    if ds != [] {
      OverEmpty(ds[..|ds| - 1], w);
    }
  }

  /** One more row adds its weight once for every occurrence of its directory in `ds`. */
  lemma {:induction false} OverStep(ds: seq<string>, files: seq<FileInfo>, f: FileInfo, w: FileInfo -> nat)
    ensures Over(ds, files + [f], w) == Over(ds, files, w) + Hits(ds, Dir(f.path), w(f))
  {
    if ds != [] {
      OverStep(ds[..|ds| - 1], files, f, w);
      WeightInSnoc(files, f, ds[|ds| - 1], w);
    }
  }

  /** Summed over distinct directories that cover all rows, the per-directory weights give the total. */
  lemma {:induction false} OverTotal(ds: seq<string>, files: seq<FileInfo>, w: FileInfo -> nat)
    requires Distinct(ds) && forall f :: f in files ==> Dir(f.path) in ds
    ensures Over(ds, files, w) == Weight(files, w)
  {
    if files == [] {
      OverEmpty(ds, w);
    } else {
      var init, f := files[..|files| - 1], files[|files| - 1];
      assert files == init + [f];
      OverTotal(ds, init, w);
      OverStep(ds, init, f, w);
      HitsOnce(ds, Dir(f.path), w(f));
    }
  }

  lemma {:induction false} WeightSizes(files: seq<FileInfo>)
    ensures Weight(files, One) == |files| && Weight(files, SizeOf) == TotalSize(files)
  {
    if files != [] {
      WeightSizes(files[..|files| - 1]);
    }
  }

  function FolderPaths(folders: seq<FolderInfo>): (r: seq<string>)
    ensures |r| == |folders| && forall i :: 0 <= i < |folders| ==> r[i] == folders[i].path
  {
    if folders == [] then [] else FolderPaths(folders[..|folders| - 1]) + [folders[|folders| - 1].path]
  }

  lemma {:induction false} FolderSums(folders: seq<FolderInfo>, files: seq<FileInfo>)
    requires forall i :: 0 <= i < |folders| ==> IsFolderOf(files, folders[i])
    ensures FolderCounts(folders) == Over(FolderPaths(folders), files, One)
    ensures FolderSizes(folders) == Over(FolderPaths(folders), files, SizeOf)
  {
    if folders != [] {
      FolderSums(folders[..|folders| - 1], files);
      assert FolderPaths(folders)[..|folders| - 1] == FolderPaths(folders[..|folders| - 1]);
    }
  }

  /** The folder rows account for every file once: their counts sum to the rows, their sizes to the total. */
  lemma FolderTotals(folders: seq<FolderInfo>, files: seq<FileInfo>)
    requires FoldersDescribe(folders, files)
    ensures FolderCounts(folders) == |files|
    ensures FolderSizes(folders) == TotalSize(files)
  {
    var ds := FolderPaths(folders);
    forall i, j | 0 <= i < j < |ds| ensures ds[i] != ds[j] {
      assert Less(folders[i].path, folders[j].path);
    }
    forall f | f in files ensures Dir(f.path) in ds {
      var i :| 0 <= i < |folders| && folders[i].path == Dir(f.path);
      assert ds[i] == Dir(f.path);
    }
    FolderSums(folders, files);
    OverTotal(ds, files, One);
    OverTotal(ds, files, SizeOf);
    WeightSizes(files);
  }
}
