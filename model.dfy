/**
  * The tool's state and the main view's operations on it (`Model` in
  * main.go): rebuilding the rows from the context, pasting a path, deleting
  * rows or folders, yanking the prompt document (live, or replayed from
  * history) and the list navigation keys.
  *
  * Everything the tool asks of the outside world comes in as a parameter:
  * the home directory, `os.Stat`, `os.ReadFile`, the tree `filepath.WalkDir`
  * sees and `doublestar.Match` (all in `Env`), `LoadContext` and the history
  * loader as lookup functions, and the outcome of the clipboard copy and of
  * `SaveContext` as booleans.
  */
module App {

  import opened Strings
  import opened Sorting
  import opened Paths
  import opened Wrappers
  import opened Contexts
  import opened Excludes
  import opened History
  import opened Prompt
  import opened Files
  import opened Navigation

  /** The screens of the tool. */
  datatype Mode =
    | Normal
    | FolderView
    | ContextSelect
    | ExcludeSelect
    | NewContext
    | AddFileInput
    | ShowConfig
    | EditBox
    | ConfirmDeleteContext

  /** The two tabs of the main view. */
  datatype Tab = ContextTab | HistoryTab

  /** The outside world as the tool sees it. */
  datatype Env = Env(
    home: string,
    stat: string -> Option<Stat>,
    read: string -> Option<string>,
    tree: string -> Option<Entry>,
    glob: Glob)

  /** A context as `LoadContext` reads it from its file. */
  datatype ContextFile = ContextFile(
    name: string,
    projectRoot: string,
    projectContext: string,
    request: string,
    files: seq<string>)

  // ---------------------------------------------------------------------------
  // What the rows are built from.
  // ---------------------------------------------------------------------------

  /**
    * The rows and folders are those of the context's `paths`: one row per path
    * (`buildFileInfo`), larger files first, and the folders grouped from them.
    */
  predicate Reflects(files: seq<FileInfo>, folders: seq<FolderInfo>, paths: seq<string>, env: Env, skip: seq<string>) {
    && multiset(files) == multiset(Infos(paths, env.home, env.stat, skip))
    && SortedBy(files, LargerOrSame)
    && FoldersDescribe(folders, files)
  }

  /** There is a row for every context path and a context path for every row. */
  lemma RowsAreContextPaths(files: seq<FileInfo>, paths: seq<string>, env: Env, skip: seq<string>)
    requires multiset(files) == multiset(Infos(paths, env.home, env.stat, skip))
    ensures |files| == |paths|
    ensures forall p :: p in PathsOf(files) <==> p in paths
  {
    var infos := Infos(paths, env.home, env.stat, skip);
    assert |multiset(files)| == |multiset(infos)|;
    forall p | p in PathsOf(files) ensures p in paths {
      var i :| 0 <= i < |files| && PathsOf(files)[i] == p;
      assert files[i] in multiset(infos);
      var k :| 0 <= k < |infos| && infos[k] == files[i];
    }
    forall p | p in paths ensures p in PathsOf(files) {
      var k :| 0 <= k < |paths| && paths[k] == p;
      assert infos[k] in multiset(files);
      var i :| 0 <= i < |files| && files[i] == infos[k];
      assert PathsOf(files)[i] == p;
    }
  }

  /** An empty context has no rows and no folders. */
  lemma EmptyContextHasNoRows(files: seq<FileInfo>, folders: seq<FolderInfo>, env: Env, skip: seq<string>)
    requires Reflects(files, folders, [], env, skip)
    ensures files == [] && folders == []
  {
    assert |multiset(files)| == 0;
    assert files == [];
    assert |folders| > 0 ==> folders[0].path in DirsOf(files);
  }

  /** The first loop of `refreshFiles`: one `buildFileInfo` row per path, in context order. */
  method BuildAll(paths: seq<string>, home: string, stat: string -> Option<Stat>, skip: seq<string>)
    returns (infos: seq<FileInfo>)
    ensures infos == Infos(paths, home, stat, skip)
  {
    infos := [];
    var i := 0;
    while i < |paths|
      invariant 0 <= i <= |paths|
      invariant |infos| == i
      invariant forall k :: 0 <= k < i ==> infos[k] == FileInfoOf(paths[k], home, stat(paths[k]), skip)
    {
      var info := BuildFileInfo(paths[i], home, stat(paths[i]), skip);
      infos := infos + [info];
      i := i + 1;
    }
  }

  /** The body of `refreshFiles` on its inputs: the rows, sorted largest first, and their folders. */
  method Rebuild(paths: seq<string>, env: Env, skip: seq<string>) returns (files: seq<FileInfo>, folders: seq<FolderInfo>)
    ensures Reflects(files, folders, paths, env, skip)
    ensures |files| == |paths|
  {
    var infos := BuildAll(paths, env.home, env.stat, skip);
    LargerFirstIsTotal();
    files := Sort(infos, LargerOrSame);
    assert |multiset(files)| == |multiset(infos)|;
    folders := Files.RefreshFolders(files);
  }

  // ---------------------------------------------------------------------------
  // Rows with a property.
  // ---------------------------------------------------------------------------

  /** How many rows stand for paths that did not exist at the last refresh. */
  function MissingCount(files: seq<FileInfo>): nat {
    if files == [] then 0
    else MissingCount(files[..|files| - 1]) + (if files[|files| - 1].present then 0 else 1)
  }

  /** Nothing is missing exactly when every row exists. */
  lemma {:induction false} NoneMissing(files: seq<FileInfo>)
    ensures MissingCount(files) == 0 <==> forall i :: 0 <= i < |files| ==> files[i].present
    ensures MissingCount(files) <= |files|
  {
    if files != [] {
      NoneMissing(files[..|files| - 1]);
    }
  }

  /** `yank`'s scan for missing rows. */
  method CountMissing(files: seq<FileInfo>) returns (missing: nat)
    ensures missing == MissingCount(files)
  {
    missing := 0;
    var i := 0;
    while i < |files|
      invariant 0 <= i <= |files|
      invariant missing == MissingCount(files[..i])
    {
      assert files[..i + 1][..i] == files[..i];
      if !files[i].present {
        missing := missing + 1;
      }
      i := i + 1;
    }
    assert files[..i] == files;
  }

  /** The paths of the selected rows, in row order. */
  function SelectedPaths(files: seq<FileInfo>): seq<string> {
    if files == [] then []
    else
      var last := files[|files| - 1];
      SelectedPaths(files[..|files| - 1]) + (if last.selected then [last.path] else [])
  }

  /** A path is collected exactly when some selected row has it. */
  lemma {:induction false} SelectedPathsMembers(files: seq<FileInfo>)
    ensures forall p :: p in SelectedPaths(files) <==> exists i :: 0 <= i < |files| && files[i].selected && files[i].path == p
    ensures |SelectedPaths(files)| <= |files|
  {
    if files != [] {
      var init := files[..|files| - 1];
      SelectedPathsMembers(init);
      forall p | (exists i :: 0 <= i < |files| && files[i].selected && files[i].path == p)
        ensures p in SelectedPaths(files)
      {
        var i :| 0 <= i < |files| && files[i].selected && files[i].path == p;
        if i < |init| {
          assert init[i] == files[i];
        }
      }
      forall p | p in SelectedPaths(files)
        ensures exists i :: 0 <= i < |files| && files[i].selected && files[i].path == p
      {
        if p in SelectedPaths(init) {
          var i :| 0 <= i < |init| && init[i].selected && init[i].path == p;
          assert files[i] == init[i];
        } else {
          assert files[|files| - 1].path == p;
        }
      }
    }
  }

  /** `selectedCount`: how many rows are selected. */
  method CountSelected(files: seq<FileInfo>) returns (count: nat)
    ensures count == |SelectedPaths(files)|
  {
    count := 0;
    var i := 0;
    while i < |files|
      invariant 0 <= i <= |files|
      invariant count == |SelectedPaths(files[..i])|
    {
      assert files[..i + 1][..i] == files[..i];
      if files[i].selected {
        count := count + 1;
      }
      i := i + 1;
    }
    assert files[..i] == files;
  }

  /** `deleteSelected`'s `toRemove`: the paths of the selected rows. */
  method CollectSelected(files: seq<FileInfo>) returns (toRemove: seq<string>)
    ensures toRemove == SelectedPaths(files)
  {
    toRemove := [];
    var i := 0;
    while i < |files|
      invariant 0 <= i <= |files|
      invariant toRemove == SelectedPaths(files[..i])
    {
      assert files[..i + 1][..i] == files[..i];
      if files[i].selected {
        toRemove := toRemove + [files[i].path];
      }
      i := i + 1;
    }
    assert files[..i] == files;
  }

  /** The `*` key's first loop: whether every row is selected, stopping at the first that is not. */
  method AllRowsSelected(files: seq<FileInfo>) returns (allSelected: bool)
    ensures allSelected == AllSelected(files)
  {
    allSelected := true;
    var i := 0;
    while i < |files|
      invariant 0 <= i <= |files|
      invariant forall k :: 0 <= k < i ==> files[k].selected
    {
      if !files[i].selected {
        allSelected := false;
        break;
      }
      i := i + 1;
    }
  }

  /** The row at `i` with its selection flipped, every other row as it was. */
  function ToggledAt(files: seq<FileInfo>, i: int): (r: seq<FileInfo>)
    requires 0 <= i < |files|
  {
    files[i := files[i].(selected := !files[i].selected)]
  }

  /** Toggling a row twice restores the list; toggling changes that row's selection and nothing else. */
  lemma ToggleTwice(files: seq<FileInfo>, i: int)
    requires 0 <= i < |files|
    ensures ToggledAt(ToggledAt(files, i), i) == files
    ensures PathsOf(ToggledAt(files, i)) == PathsOf(files)
    ensures ToggledAt(files, i)[i].selected != files[i].selected
    ensures forall k :: 0 <= k < |files| && k != i ==> ToggledAt(files, i)[k] == files[k]
  {
    var toggled := ToggledAt(files, i);
    assert forall k :: 0 <= k < |files| ==> PathsOf(toggled)[k] == PathsOf(files)[k];
  }

  /** The paths "d" removes: the selected rows', or else the cursor row's, or none when the cursor is past the rows. */
  function ChosenForDeletion(files: seq<FileInfo>, cursor: int): set<string> {
    var selected := SelectedPaths(files);
    if selected != [] then set p | p in selected
    else if 0 <= cursor < |files| then {files[cursor].path}
    else {}
  }

  /**
    * With a selection, "d" keeps exactly the context paths no selected row
    * has; without one, it removes the cursor row's path and nothing else.
    */
  lemma DeletionEffect(files: seq<FileInfo>, cursor: int, paths: seq<string>)
    ensures SelectedPaths(files) != [] ==> forall p :: p in Keep(paths, ChosenForDeletion(files, cursor)) <==>
      p in paths && !exists i :: 0 <= i < |files| && files[i].selected && files[i].path == p
    ensures SelectedPaths(files) == [] && 0 <= cursor < |files| ==> forall p :: p in Keep(paths, ChosenForDeletion(files, cursor)) <==>
      p in paths && p != files[cursor].path
    ensures SelectedPaths(files) == [] && !(0 <= cursor < |files|) ==> Keep(paths, ChosenForDeletion(files, cursor)) == paths
  {
    SelectedPathsMembers(files);
    if SelectedPaths(files) == [] && !(0 <= cursor < |files|) {
      KeepNothing(paths, {});
    }
  }

  // ---------------------------------------------------------------------------
  // The folder-delete branch of `handleFolderKey`.
  // ---------------------------------------------------------------------------

  /** The paths of the selected folders, in folder order. */
  function SelectedFolderPaths(folders: seq<FolderInfo>): seq<string> {
    if folders == [] then []
    else
      var last := folders[|folders| - 1];
      SelectedFolderPaths(folders[..|folders| - 1]) + (if last.selected then [last.path] else [])
  }

  /** The folders "d" deletes: the selected ones, or else the one under the cursor if there is one. */
  function FoldersToDelete(folders: seq<FolderInfo>, folderCursor: int): seq<string> {
    var selected := SelectedFolderPaths(folders);
    if selected != [] then selected
    else if 0 <= folderCursor < |folders| then [folders[folderCursor].path]
    else []
  }

  /** The collecting loop of the folder delete. */
  method CollectFolders(folders: seq<FolderInfo>, folderCursor: int) returns (foldersToDelete: seq<string>)
    requires folderCursor >= 0
    ensures foldersToDelete == FoldersToDelete(folders, folderCursor)
  {
    foldersToDelete := [];
    var hasSelection := false;
    var i := 0;
    while i < |folders|
      invariant 0 <= i <= |folders|
      invariant foldersToDelete == SelectedFolderPaths(folders[..i])
      invariant hasSelection <==> foldersToDelete != []
    {
      assert folders[..i + 1][..i] == folders[..i];
      if folders[i].selected {
        hasSelection := true;
        foldersToDelete := foldersToDelete + [folders[i].path];
      }
      i := i + 1;
    }
    assert folders[..i] == folders;
    if !hasSelection && folderCursor < |folders| {
      foldersToDelete := [folders[folderCursor].path];
    }
  }

  /** The context paths whose parent directory is none of `dirs`, in order. */
  function KeepOutside(files: seq<string>, dirs: seq<string>): seq<string> {
    if files == [] then []
    else
      var last := files[|files| - 1];
      KeepOutside(files[..|files| - 1], dirs) + (if Dir(last) in dirs then [] else [last])
  }

  /** Deleting folders is removing, in one go, the context paths that lie directly in one of them. */
  lemma {:induction false} KeepOutsideIsKeep(files: seq<string>, dirs: seq<string>, drop: set<string>)
    requires forall f :: f in files ==> (f in drop <==> Dir(f) in dirs)
    ensures KeepOutside(files, dirs) == Keep(files, drop)
  {
    if files != [] {
      var init := files[..|files| - 1];
      assert forall f :: f in init ==> f in files;
      KeepOutsideIsKeep(init, dirs, drop);
      assert files[|files| - 1] in files;
    }
  }

  /** After a folder delete, no context path lies directly in a deleted folder, and every other path stays. */
  lemma FolderDeleteEffect(files: seq<string>, dirs: seq<string>)
    ensures forall f :: f in KeepOutside(files, dirs) <==> f in files && Dir(f) !in dirs
  {
    var drop := set f | f in files && Dir(f) in dirs;
    KeepOutsideIsKeep(files, dirs, drop);
  }

  /** The filtering loop of the folder delete, with its inner scan over the folders. */
  method FilesOutside(files: seq<string>, dirs: seq<string>) returns (newFiles: seq<string>)
    ensures newFiles == KeepOutside(files, dirs)
  {
    newFiles := [];
    var i := 0;
    while i < |files|
      invariant 0 <= i <= |files|
      invariant newFiles == KeepOutside(files[..i], dirs)
    {
      var dir := Dir(files[i]);
      var keep := true;
      var j := 0;
      while j < |dirs|
        invariant 0 <= j <= |dirs|
        invariant keep <==> dir !in dirs[..j]
      {
        if dir == dirs[j] {
          keep := false;
          break;
        }
        j := j + 1;
      }
      assert dirs[..|dirs|] == dirs;
      assert files[..i + 1][..i] == files[..i];
      if keep {
        newFiles := newFiles + [files[i]];
      }
      i := i + 1;
    }
    assert files[..i] == files;
  }

  // ---------------------------------------------------------------------------
  // Writing the document.
  // ---------------------------------------------------------------------------

  /**
    * The file loop of `yank`: every row that exists and reads, in row order,
    * shown relative to the project root. The blocks are gathered apart and
    * then appended to `sb`, which writes the same text.
    */
  method WriteLiveBlocks(sb: string, files: seq<FileInfo>, projectRoot: string, read: string -> Option<string>)
    returns (r: string)
    requires forall i :: 0 <= i < |files| ==> files[i].present
    ensures r == sb + FileBlocks(PathsOf(files), projectRoot, read)
  {
    var blocks := "";
    ghost var paths := PathsOf(files);
    var i := 0;
    while i < |files|
      invariant 0 <= i <= |files|
      invariant blocks == FileBlocks(paths[..i], projectRoot, read)
    {
      BlocksStep(paths, projectRoot, read, i);
      if files[i].present {
        var block := LiveBlock(files[i].path, projectRoot, read);
        blocks := blocks + block;
      }
      i := i + 1;
    }
    assert paths[..i] == paths;
    r := sb + blocks;
  }

  /** The `filePaths` loop of `yank`: the row paths, in row order. */
  method CollectPaths(files: seq<FileInfo>) returns (filePaths: seq<string>)
    ensures filePaths == PathsOf(files)
  {
    filePaths := [];
    var i := 0;
    while i < |files|
      invariant 0 <= i <= |files|
      invariant filePaths == PathsOf(files)[..i]
    {
      filePaths := filePaths + [files[i].path];
      i := i + 1;
    }
  }

  // ---------------------------------------------------------------------------
  // Outcomes (the status line's cases).
  // ---------------------------------------------------------------------------

  datatype PasteOutcome =
    | Ignored                      // blank input
    | NotAbsolute                  // "Not a valid path"
    | NotFound                     // "Path not found"
    | ExpandFailed                 // "Error expanding"
    | PasteSaveFailed              // "Error saving"
    | AddedFromDirectory(added: nat)
    | FileAdded
    | AlreadyInContext

  datatype DeleteOutcome =
    | DeleteSaveFailed             // "Error saving"
    | Deleted(selected: nat)       // "Deleted N files", or "Deleted file" when nothing was selected

  datatype YankOutcome =
    | MissingFiles(count: nat)     // "Warning: N file(s) missing"
    | ClipboardFailed
    | Yanked(copied: string, count: nat, entry: HistoryEntry, historyFile: string, saved: Result<seq<string>>)

  datatype ReplayOutcome =
    | NoEntrySelected
    | ReplayClipboardFailed
    | Replayed(copied: string, count: nat)

  // ---------------------------------------------------------------------------
  // The model.
  // ---------------------------------------------------------------------------

  class Model {
    var skipPrefixes: seq<string>
    var activeContext: string
    var context: Context
    var contexts: seq<string>
    var exclude: ExcludeRule
    var files: seq<FileInfo>
    var folders: seq<FolderInfo>
    var cursor: int
    var offset: int
    var folderCursor: int
    var folderOffset: int
    var mode: Mode
    var activeBox: int
    var activeTab: Tab
    var historyEntries: seq<HistoryEntry>
    var historyCursor: int
    var historyOffset: int
    var height: int

    /** Cursors and offsets are never negative (the folder cursor only while the folder view is shown) and a box is active. */
    predicate Valid()
      reads this`cursor, this`offset, this`historyCursor, this`historyOffset, this`mode, this`folderCursor, this`activeBox
    {
      && 0 <= cursor && 0 <= offset
      && 0 <= historyCursor && 0 <= historyOffset
      && (mode == FolderView ==> 0 <= folderCursor)
      && IsBox(activeBox)
    }

    /** The context object holds what `file` says. */
    predicate Holds(file: ContextFile)
      reads this`context, context
    {
      && context.name == file.name && context.projectRoot == file.projectRoot
      && context.projectContext == file.projectContext && context.request == file.request
      && context.files == file.files
    }

    /**
      * `initialModel` once the configuration, the exclude rule and the context
      * list are loaded. `loaded` is the configured context as `LoadContext`
      * returned it; when it failed, the "default" context `fallback` is used
      * and becomes the active one.
      */
    constructor (skip: seq<string>, activeName: string, loaded: Option<ContextFile>, fallback: ContextFile,
                 rule: ExcludeRule, names: seq<string>, env: Env)
      ensures Valid()
      ensures loaded.Some? ==> Holds(loaded.value) && activeContext == activeName
      ensures loaded.None? ==> Holds(fallback) && activeContext == "default"
      ensures skipPrefixes == skip && exclude == rule && contexts == names
      ensures Reflects(files, folders, context.files, env, skip)
      ensures mode == Normal && activeTab == ContextTab && activeBox == BoxRequest && height == 24
      ensures cursor == 0 && offset == 0 && folderCursor == 0 && folderOffset == 0
      ensures historyEntries == [] && historyCursor == 0 && historyOffset == 0
    {
      var file := if loaded.Some? then loaded.value else fallback;
      skipPrefixes := skip;
      activeContext := if loaded.Some? then activeName else "default";
      context := new Context(file.name, file.projectRoot, file.projectContext, file.request, file.files);
      contexts := names;
      exclude := rule;
      var rows, dirs := Rebuild(file.files, env, skip);
      files, folders := rows, dirs;
      cursor, offset := 0, 0;
      folderCursor, folderOffset := 0, 0;
      mode := Normal;
      activeBox := BoxRequest;
      activeTab := ContextTab;
      historyEntries := [];
      historyCursor, historyOffset := 0, 0;
      height := 24;
    }

    /** `refreshFiles`: a row per context path, largest first, then `refreshFolders`. */
    method RefreshFiles(env: Env)
      modifies this`files, this`folders
      ensures Reflects(files, folders, context.files, env, skipPrefixes)
      ensures |files| == |context.files|
    {
      files, folders := Rebuild(context.files, env, skipPrefixes);
    }

    // "up"/"k" and "down"/"j" -------------------------------------------------

    method MoveUp()
      requires Valid()
      modifies this`cursor, this`offset, this`historyCursor, this`historyOffset
      ensures Valid()
      ensures activeTab == HistoryTab ==>
        && Scroll(historyCursor, historyOffset) == ScrollUp(Scroll(old(historyCursor), old(historyOffset)))
        && cursor == old(cursor) && offset == old(offset)
      ensures activeTab == ContextTab ==>
        && Scroll(cursor, offset) == ScrollUp(Scroll(old(cursor), old(offset)))
        && historyCursor == old(historyCursor) && historyOffset == old(historyOffset)
    {
      if activeTab == HistoryTab {
        if historyCursor > 0 {
          historyCursor := historyCursor - 1;
          if historyCursor < historyOffset {
            historyOffset := historyCursor;
          }
        }
      } else {
        if cursor > 0 {
          cursor := cursor - 1;
          if cursor < offset {
            offset := cursor;
          }
        }
      }
    }

    method MoveDown()
      requires Valid()
      modifies this`cursor, this`offset, this`historyCursor, this`historyOffset
      ensures Valid()
      ensures activeTab == HistoryTab ==>
        && Scroll(historyCursor, historyOffset)
           == ScrollDown(Scroll(old(historyCursor), old(historyOffset)), |historyEntries|, VisibleFileRows(height))
        && cursor == old(cursor) && offset == old(offset)
      ensures activeTab == ContextTab ==>
        && Scroll(cursor, offset) == ScrollDown(Scroll(old(cursor), old(offset)), |files|, VisibleFileRows(height))
        && historyCursor == old(historyCursor) && historyOffset == old(historyOffset)
    {
      var visibleRows := VisibleFileRows(height);
      if activeTab == HistoryTab {
        if historyCursor < |historyEntries| - 1 {
          historyCursor := historyCursor + 1;
          if historyCursor >= historyOffset + visibleRows {
            historyOffset := historyCursor - visibleRows + 1;
          }
        }
      } else {
        if cursor < |files| - 1 {
          cursor := cursor + 1;
          if cursor >= offset + visibleRows {
            offset := cursor - visibleRows + 1;
          }
        }
      }
    }

    // " ", "*", "D" --------------------------------------------------------------

    /** " ": flip the selection of the row under the cursor, if there is one. */
    method ToggleSelection()
      requires Valid()
      modifies this`files
      ensures cursor < |old(files)| ==> files == ToggledAt(old(files), cursor)
      ensures cursor >= |old(files)| ==> files == old(files)
    {
      if cursor < |files| {
        files := files[cursor := files[cursor].(selected := !files[cursor].selected)];
      }
    }

    /** "*": select every row, or clear every row when all were selected. */
    method ToggleAll()
      modifies this`files
      ensures files == ToggledAll(old(files))
    {
      var allSelected := AllRowsSelected(files);
      var i := 0;
      while i < |files|
        invariant 0 <= i <= |files| == |old(files)|
        invariant forall k :: 0 <= k < i ==> files[k] == old(files)[k].(selected := !allSelected)
        invariant forall k :: i <= k < |files| ==> files[k] == old(files)[k]
      {
        files := files[i := files[i].(selected := !allSelected)];
        i := i + 1;
      }
    }

    /** "D": empty the context (whether or not it saves), rebuild, and go back to the top. */
    method ClearFiles(env: Env)
      requires Valid()
      modifies this`files, this`folders, this`cursor, this`offset, context`files
      ensures Valid()
      ensures context.files == [] && files == [] && folders == []
      ensures cursor == 0 && offset == 0
    {
      context.files := [];
      RefreshFiles(env);
      EmptyContextHasNoRows(files, folders, env, skipPrefixes);
      cursor := 0;
      offset := 0;
    }

    // "[", "]", "<", ">" ---------------------------------------------------------

    method PrevBox()
      requires Valid()
      modifies this`activeBox
      ensures Valid() && activeBox == Navigation.PrevBox(old(activeBox))
    {
      activeBox := activeBox - 1;
      if activeBox < 0 {
        activeBox := BoxProjectContext;
      }
    }

    method NextBox()
      requires Valid()
      modifies this`activeBox
      ensures Valid() && activeBox == Navigation.NextBox(old(activeBox))
    {
      activeBox := activeBox + 1;
      if activeBox > BoxProjectContext {
        activeBox := BoxRequest;
      }
    }

    /** "<": back to the context tab. */
    method ShowContextTab()
      modifies this`activeTab
      ensures activeTab == ContextTab
    {
      if activeTab == HistoryTab {
        activeTab := ContextTab;
      }
    }

    /** ">": from the context tab, switch to history and load it, newest first; a failed listing shows nothing. */
    method ShowHistoryTab(listing: Listing, load: string -> Option<HistoryEntry>)
      requires Valid()
      modifies this`activeTab, this`historyEntries, this`historyCursor, this`historyOffset
      ensures Valid() && activeTab == HistoryTab
      ensures old(activeTab) == HistoryTab ==>
        historyEntries == old(historyEntries) && historyCursor == old(historyCursor) && historyOffset == old(historyOffset)
      ensures old(activeTab) == ContextTab ==>
        && historyCursor == 0 && historyOffset == 0
        && (listing.Listed? ==> multiset(historyEntries) == multiset(Loadable(listing.entries, load))
                                && SortedBy(historyEntries, NewerOrSame))
        && (!listing.Listed? ==> historyEntries == [])
    {
      if activeTab == ContextTab {
        activeTab := HistoryTab;
        var result := ListHistoryEntries(listing, load);
        historyEntries := if result.Ok? then result.value else [];
        historyCursor := 0;
        historyOffset := 0;
      }
    }

    // "{", "}" -------------------------------------------------------------------

    /** `switchToContext`: load the named context, make it active and rebuild; a context that does not load changes nothing. */
    method SwitchToContext(name: string, load: string -> Option<ContextFile>, env: Env)
      requires Valid()
      modifies this`context, this`activeContext, this`files, this`folders, this`cursor, this`offset
      ensures Valid()
      ensures load(name).None? ==> unchanged(this)
      ensures load(name).Some? ==>
        && fresh(context) && Holds(load(name).value) && activeContext == name
        && Reflects(files, folders, context.files, env, skipPrefixes)
        && cursor == 0 && offset == 0
    {
      var file := load(name);
      if file.None? {
        return;
      }
      var f := file.value;
      context := new Context(f.name, f.projectRoot, f.projectContext, f.request, f.files);
      activeContext := name;
      cursor := 0;
      offset := 0;
      RefreshFiles(env);
    }

    /** The search `{` and `}` make for the current context, and the context they pick; none with fewer than two. */
    method CycleTarget(forward: bool) returns (target: Option<string>)
      ensures |contexts| <= 1 ==> target == None
      ensures |contexts| > 1 ==> target == Some(if forward then NextContext(contexts, context.name)
                                                 else PrevContext(contexts, context.name))
    {
      if |contexts| <= 1 {
        return None;
      }
      var currentIdx := -1;
      var i := 0;
      while i < |contexts|
        invariant 0 <= i <= |contexts|
        invariant currentIdx == -1 && context.name !in contexts[..i]
      {
        if contexts[i] == context.name {
          currentIdx := i;
          break;
        }
        i := i + 1;
      }
      assert contexts[..|contexts|] == contexts;
      assert currentIdx == IndexOf(contexts, context.name) by {
        if currentIdx != -1 {
          assert contexts[currentIdx] == context.name;
          assert context.name !in contexts[..currentIdx];
        }
      }
      if forward {
        if currentIdx < |contexts| - 1 {
          target := Some(contexts[currentIdx + 1]);
        } else {
          target := Some(contexts[0]);
        }
      } else {
        if currentIdx > 0 {
          target := Some(contexts[currentIdx - 1]);
        } else {
          target := Some(contexts[|contexts| - 1]);
        }
      }
    }

    /** "{" (`forward` false) and "}" (`forward` true): switch to the neighbouring context, if there are two or more. */
    method CycleContext(forward: bool, load: string -> Option<ContextFile>, env: Env) returns (target: Option<string>)
      requires Valid()
      modifies this`context, this`activeContext, this`files, this`folders, this`cursor, this`offset
      ensures Valid()
      ensures |old(contexts)| <= 1 ==> target == None
      ensures |old(contexts)| > 1 ==> target == Some(if forward then NextContext(contexts, old(context.name))
                                                      else PrevContext(contexts, old(context.name)))
      ensures (target.None? || load(target.value).None?) ==>
        && context == old(context) && files == old(files) && folders == old(folders)
        && cursor == old(cursor) && offset == old(offset)
      ensures target.Some? && load(target.value).Some? ==>
        && Holds(load(target.value).value) && activeContext == target.value
        && Reflects(files, folders, context.files, env, skipPrefixes)
        && cursor == 0 && offset == 0
    {
      target := CycleTarget(forward);
      if target.Some? {
        SwitchToContext(target.value, load, env);
      }
    }

    // Pasting a path -------------------------------------------------------------

    /** The adding loop of `processPaste`: `AddFile` for each path, counting the ones that were new. */
    method AddPaths(paths: seq<string>) returns (added: nat)
      modifies context`files
      ensures context.files == AddEach(old(context.files), paths)
      ensures added == |context.files| - |old(context.files)|
    {
      added := 0;
      var i := 0;
      while i < |paths|
        invariant 0 <= i <= |paths|
        invariant context.files == AddEach(old(context.files), paths[..i])
        invariant |old(context.files)| + added == |context.files|
      {
        AddEachSnoc(old(context.files), paths[..i], paths[i]);
        assert paths[..i + 1] == paths[..i] + [paths[i]];
        var ok := context.AddFile(paths[i]);
        if ok {
          added := added + 1;
        }
        i := i + 1;
      }
      assert paths[..i] == paths;
    }

    /**
      * `processPaste`: a trimmed absolute path that exists is added, a file by
      * itself and a directory through `ExpandDirectory` with the active exclude
      * rule; the rows are rebuilt once the context saves.
      */
    method ProcessPaste(input: string, env: Env, saveOk: bool) returns (outcome: PasteOutcome)
      modifies context`files, this`files, this`folders
      ensures var path := TrimSpace(input);
        && (path == "" ==> outcome == Ignored)
        && (path != "" && !HasPrefix(path, "/") ==> outcome == NotAbsolute)
        && (path != "" && HasPrefix(path, "/") && env.stat(path).None? ==> outcome == NotFound)
      ensures outcome in {Ignored, NotAbsolute, NotFound, ExpandFailed, AlreadyInContext} ==>
        context.files == old(context.files) && files == old(files) && folders == old(folders)
      ensures outcome == PasteSaveFailed ==> files == old(files) && folders == old(folders)
      ensures outcome.AddedFromDirectory? || outcome == FileAdded ==>
        Reflects(files, folders, context.files, env, skipPrefixes)
      ensures var path := TrimSpace(input);
        path != "" && HasPrefix(path, "/") && env.stat(path).Some? && env.stat(path).value.isDir ==>
          var walked := Expand(path, env.tree(path), Some(exclude), env.glob);
          && (walked.failed ==> outcome == ExpandFailed)
          && (!walked.failed ==> context.files == AddEach(old(context.files), walked.files)
                                 && (saveOk ==> outcome.AddedFromDirectory? && |old(context.files)| + outcome.added == |context.files|)
                                 && (!saveOk ==> outcome == PasteSaveFailed))
      ensures var path := TrimSpace(input);
        path != "" && HasPrefix(path, "/") && env.stat(path).Some? && !env.stat(path).value.isDir ==>
          && (path in old(context.files) ==> outcome == AlreadyInContext)
          && (path !in old(context.files) ==> context.files == old(context.files) + [path]
                                              && outcome == (if saveOk then FileAdded else PasteSaveFailed))
    {
      var path := TrimSpace(input);
      if path == "" {
        return Ignored;
      }
      if !HasPrefix(path, "/") {
        return NotAbsolute;
      }
      var stat := env.stat(path);
      if stat.None? {
        return NotFound;
      }
      if stat.value.isDir {
        var expanded, failed := ExpandDirectory(path, env.tree(path), Some(exclude), env.glob);
        if failed {
          return ExpandFailed;
        }
        var added := AddPaths(expanded);
        if !saveOk {
          return PasteSaveFailed;
        }
        RefreshFiles(env);
        return AddedFromDirectory(added);
      }
      var ok := context.AddFile(path);
      if ok {
        if !saveOk {
          return PasteSaveFailed;
        }
        RefreshFiles(env);
        return FileAdded;
      }
      return AlreadyInContext;
    }

    // Deleting -------------------------------------------------------------------

    /** The first half of "d": remove the chosen paths from the context; `selected` is how many rows were selected. */
    method RemoveChosen() returns (selected: nat)
      requires Valid()
      modifies context`files
      ensures selected == |SelectedPaths(files)|
      ensures context.files == Keep(old(context.files), ChosenForDeletion(files, cursor))
    {
      selected := CountSelected(files);
      if selected > 0 {
        var toRemove := CollectSelected(files);
        context.RemoveFiles(toRemove);
      } else if cursor < |files| {
        context.RemoveFile(files[cursor].path);
      } else {
        KeepNothing(context.files, {});
      }
    }

    /**
      * "d": remove the selected rows' paths from the context, or else the
      * cursor row's; once the context saves, rebuild and keep the cursor on a
      * row (at 0 when none is left). The rebuilt list has one row per context
      * path, so the clamp is taken against the context's length before the
      * rebuild, which is the length `deleteSelected` reads after it.
      */
    method DeleteSelected(env: Env, saveOk: bool) returns (outcome: DeleteOutcome)
      requires Valid()
      modifies context`files, this`files, this`folders, this`cursor
      ensures Valid()
      ensures context.files == Keep(old(context.files), ChosenForDeletion(old(files), old(cursor)))
      ensures !saveOk ==>
        outcome == DeleteSaveFailed && files == old(files) && folders == old(folders) && cursor == old(cursor)
      ensures saveOk ==>
        && outcome == Deleted(|SelectedPaths(old(files))|)
        && Reflects(files, folders, context.files, env, skipPrefixes)
        && cursor == Clamp(old(cursor), |files|)
        && (files != [] ==> cursor < |files|)
    {
      var selected := RemoveChosen();
      if !saveOk {
        return DeleteSaveFailed;
      }
      ClampAndRefresh(env);
      return Deleted(selected);
    }

    /** The end of "d": clamp the cursor to the remaining rows (corrected, see `Clamp`) and rebuild the rows. */
    method ClampAndRefresh(env: Env)
      requires 0 <= cursor
      modifies this`files, this`folders, this`cursor
      ensures Reflects(files, folders, context.files, env, skipPrefixes)
      ensures cursor == Clamp(old(cursor), |files|)
      ensures 0 <= cursor && (files != [] ==> cursor < |files|)
    {
      var count := |context.files|;
      ClampInRange(cursor, count);
      cursor := Clamp(cursor, count);
      RefreshFiles(env);
    }

    /**
      * The folder view's "d": remove from the context every path lying
      * directly in a selected folder (or else in the cursor folder), rebuild,
      * clamp the folder cursor as written, and leave the folder view when no
      * folder is left. A failed save is ignored.
      */
    method DeleteFolders(env: Env)
      requires Valid() && mode == FolderView
      modifies context`files, this`files, this`folders, this`folderCursor, this`mode
      ensures Valid()
      ensures context.files == KeepOutside(old(context.files), FoldersToDelete(old(folders), old(folderCursor)))
      ensures Reflects(files, folders, context.files, env, skipPrefixes)
      ensures folderCursor == ClampAsWritten(old(folderCursor), |folders|)
      ensures mode == if folders == [] then Normal else FolderView
    {
      var foldersToDelete := CollectFolders(folders, folderCursor);
      var newFiles := FilesOutside(context.files, foldersToDelete);
      context.files := newFiles;
      RefreshFiles(env);
      SettleFolderView();
    }

    /** The end of the folder view's "d": clamp the folder cursor as written, and leave the view when no folder is left. */
    method SettleFolderView()
      requires 0 <= folderCursor
      modifies this`folderCursor, this`mode
      ensures folderCursor == ClampAsWritten(old(folderCursor), |folders|)
      ensures mode == if folders == [] then Normal else old(mode)
    {
      if folderCursor >= |folders| && folderCursor > 0 {
        folderCursor := |folders| - 1;
      }
      if |folders| == 0 {
        mode := Normal;
      }
    }

    // Yanking --------------------------------------------------------------------

    /**
      * "y" on the context tab: with no missing row, build the document from
      * the header and the readable rows in row order, copy it, and only then
      * save a history entry listing every row's path. `now` is `time.Now()`,
      * `listing` the history directory before the save, `written` whether
      * the entry file could be written and `relisted` whether pruning could
      * list the directory again. Replaying the saved entry reproduces the
      * copied document when the context has no project root.
      */
    method Yank(env: Env, clipboardOk: bool, now: Timestamp, listing: seq<DirEntry>, written: bool, relisted: bool)
      returns (outcome: YankOutcome)
      requires ValidTime(now)
      ensures MissingCount(files) > 0 ==> outcome == MissingFiles(MissingCount(files))
      ensures MissingCount(files) == 0 && !clipboardOk ==> outcome == ClipboardFailed
      ensures MissingCount(files) == 0 && clipboardOk ==>
        && outcome.Yanked?
        && outcome.copied == Document(context.projectContext, context.request,
                                      FileBlocks(PathsOf(files), context.projectRoot, env.read))
        && outcome.count == |files|
        && outcome.entry == HistoryEntry(now, context.name, context.projectContext, context.request, PathsOf(files))
        && outcome.historyFile == HistoryEntryFilename(outcome.entry)
        && (outcome.saved.Ok? <==> written && relisted)
        && (context.projectRoot == "" ==>
              Document(outcome.entry.projectContext, outcome.entry.request,
                       ReplayBlocks(outcome.entry.files, env.read)) == outcome.copied)
    {
      var sb := WriteHeader(context.projectContext, context.request);
      var missing := CountMissing(files);
      if missing > 0 {
        return MissingFiles(missing);
      }
      NoneMissing(files);
      sb := WriteLiveBlocks(sb, files, context.projectRoot, env.read);
      if !clipboardOk {
        return ClipboardFailed;
      }
      var filePaths := CollectPaths(files);
      var entry := HistoryEntry(now, context.name, context.projectContext, context.request, filePaths);
      var name, saved := SaveHistoryEntry(entry, listing, written, relisted);
      ReplayMatchesLive(filePaths, env.read);
      return Yanked(sb, |files|, entry, name, saved);
    }

    /**
      * "y" on the history tab: rebuild the selected entry's document from its
      * stored texts and paths (as stored, unreadable ones skipped) and copy
      * it; nothing is saved.
      */
    method YankHistoryEntry(env: Env, clipboardOk: bool) returns (outcome: ReplayOutcome)
      requires Valid()
      ensures historyCursor >= |historyEntries| ==> outcome == NoEntrySelected
      ensures historyCursor < |historyEntries| && !clipboardOk ==> outcome == ReplayClipboardFailed
      ensures historyCursor < |historyEntries| && clipboardOk ==>
        var entry := historyEntries[historyCursor];
        outcome == Replayed(Document(entry.projectContext, entry.request, ReplayBlocks(entry.files, env.read)),
                            |entry.files|)
    {
      if |historyEntries| == 0 || historyCursor >= |historyEntries| {
        return NoEntrySelected;
      }
      var entry := historyEntries[historyCursor];
      var sb := WriteHeader(entry.projectContext, entry.request);
      sb := WriteReplayBlocks(sb, entry.files, env.read);
      if !clipboardOk {
        return ReplayClipboardFailed;
      }
      return Replayed(sb, |entry.files|);
    }
  }
}
