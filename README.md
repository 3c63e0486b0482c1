# cheap_llm, modelled in Dafny

cheap_llm is a terminal tool that keeps named *contexts*. A context is a project description, a task request and an ordered list of file paths. The tool turns the current context into one structured prompt document and copies it to the clipboard ("yank"). It then saves a snapshot of the prompt in a history directory that keeps at most 100 entries.

This project models the logic behind that:

- **`Contexts`** (`context.dfy`): the context's file list. `AddFile`, `RemoveFile` and `RemoveFiles` are methods of a `Context` class that reassign its `files` field. They are specified by `Keep` (filtering) and `Added`.
- **`Excludes`** (`exclude.dfy`):
  - `ShouldExclude` over an uninterpreted `doublestar.Match` (a function parameter returning a match flag and an error flag).
  - `ExpandDirectory` as a recursive walk over an in-memory tree whose listings are in lexical order. An excluded directory is skipped whole, an excluded file is passed over, and the first listing error ends the walk.
  - The walk is proved equal to an independent description: the files of the tree that are not excluded and have no excluded directory above them.
- **`History`** (`history.dfy`):
  - `sanitizeFilename`, and the history file name built from a calendar timestamp.
  - Proof that file-name order is chronological order for four-digit years.
  - The name selection of `PruneHistory`, `SaveHistoryEntry`, and the filter and newest-first order of `ListHistoryEntries`.
  - `RequestPreview`.
- **`Prompt`** (`prompt.dfy`): the clipboard document of `yank` and `yankHistoryEntry`. It covers the preamble, the optional `<project_context>`/`<request>` blocks, the `<file path="...">` blocks, and the display path relative to the project root. Each is a specification function plus the builder methods that write it piece by piece.
- **`Files`** (`files.dfy`): `buildFileInfo` (home stripping, project / relative-path split), and `refreshFolders` (grouping rows by parent directory through a map, then sorting by path). It proves the folder counts and sizes add up to the row count and the total size.
- **`Navigation`** (`navigation.dfy`): the small state machines of the main view's key handler. These are the scrolling cursor, the box cycle, the wrap-around context cycle, select-all, and the cursor clamp after a deletion.
- **`Display`** (`display.dfy`): `formatSize`, `stripAnsi` (a loop carrying an escape state) and `padRight`.
- **`App`** (`model.dfy`): the tool's `Model` as a class. Its methods are:
  - the rebuild of rows and folders from the context;
  - the key actions: up/down, space, `*`, `D`, `[`/`]`, `{`/`}`, `<`/`>`;
  - pasting a path, deleting the selected rows, deleting folders;
  - the live and replayed yank.
- **`Strings`, `Sorting`, `Paths`, `Wrappers`**: the Go library behaviour these rely on.
  - `Strings`: prefixes, byte-wise string order, zero padding, split/join, space trimming.
  - `Sorting`: a sort specified as "a sorted permutation".
  - `Paths`: `filepath.Base`, `Dir` and `Join`.

The outside world comes in as parameters: `os.Stat`, `os.ReadFile`, the tree that `filepath.WalkDir` sees, `doublestar.Match`, the home directory, the context and history loaders, the current time, and whether the clipboard copy, a context save or a history write succeeded.

## Model

| member | source | states |
|---|---|---|
| Contexts.Context.constructor | context.go:12-18 | A context holds exactly the name, project root, texts and file list it is made from |
| Contexts.Context.AddFile | context.go:98-107 | Returns false and leaves the list alone when the path is listed; otherwise returns true and appends it; a repeat-free list stays repeat-free |
| Contexts.AddedDistinct | context.go:98-107 | Adding keeps the list repeat-free; the new list holds exactly the old paths and the added one |
| Contexts.Context.RemoveFile | context.go:110-118 | The new list is the old one with every occurrence of the path dropped, the rest in order |
| Contexts.LookupSet | context.go:122-125 | The lookup map answers true exactly for the listed paths (missing keys read as false) |
| Contexts.Context.RemoveFiles | context.go:121-134 | The new list keeps exactly the files not in the given paths, in their original order |
| Contexts.Keep | context.go:110-134 | The survivors are exactly the files not dropped, and there are no more of them than files |
| Contexts.KeepConcat | context.go:110-134 | Filtering distributes over concatenation, so relative order is kept |
| Contexts.KeepNothing | context.go:110-118 | Removing paths that are not listed leaves the list unchanged |
| Contexts.KeepIdempotent | context.go:110-118 | Removing twice is removing once |
| Contexts.KeepTwice | context.go:110-134 | Two removals in a row equal one removal of the union |
| Contexts.RemoveAllAtOnce | context.go:110-134 | `RemoveFiles(ps)` equals `RemoveFile` applied to each path of `ps` in turn |
| Contexts.KeepDistinct | context.go:110-134 | Removal never introduces a repeat |
| Contexts.AddEachProperties | main.go:881-886 | Adding a list of paths keeps the old files first and in order, lists each new path once, and loses nothing |
| Contexts.AddEachSnoc | main.go:881-886 | Adding one more path at the end is one more `AddFile` after the others |
| Excludes.AnyPatternExcludesExists | exclude.go:77-90 | The early-exit pattern loop excludes iff some pattern matches the full path or its base name |
| Excludes.ShouldExclude | exclude.go:77-90 | True iff some pattern matches the path or its base name; never true with no patterns |
| Excludes.ErrorsIgnored | exclude.go:80-86 | Match errors are discarded: only the match flag decides |
| Excludes.ExpandDirectory | exclude.go:93-120 | The gathered files and the error flag are those of the recursive walk from the root; an unstat-able root fails with no files |
| Excludes.Visit | exclude.go:96-117 | One callback: an excluded entry is skipped (a directory with its subtree), a file is appended, an unreadable directory fails |
| Excludes.VisitListing | exclude.go:96-117 | The listing is walked in order, files appended after those gathered so far, stopping at the first failure |
| Excludes.WalkIsVisiblePrefix | exclude.go:96-119 | The walk returns a prefix of the visible files in walk order, and all of them when nothing fails |
| Excludes.WalkChildrenIsVisiblePrefix | exclude.go:96-119 | The same for a directory listing |
| Excludes.ReadableWalkSucceeds | exclude.go:96-99 | A tree with no unreadable directory never fails |
| Excludes.ExpandIsVisibleFiles | exclude.go:93-120 | On a readable tree the result is exactly the files that are not excluded and sit under no excluded directory, each once, in walk order |
| Excludes.ExpandedNotExcluded | exclude.go:110-115 | No returned path is excluded |
| Excludes.NoneVisibleUnder | exclude.go:102-106 | Nothing below an excluded directory is visible |
| Excludes.ExcludedRootIsEmpty | exclude.go:102-106 | An excluded root yields no files and no error |
| Excludes.NoRuleKeepsEverything | exclude.go:104-115 | With no exclude rule every file of the tree is returned |
| Excludes.VisiblePathsConcat | exclude.go:96-117 | Visibility filtering distributes over concatenation |
| History.ReplaceAll | history.go:176 | Each occurrence of one character is replaced and nothing else changes |
| History.SanitizeFilename | history.go:171-179 | The loop of `ReplaceAll`s gives `Sanitized`: same length, no unsafe character left |
| History.SanitizedCharacters | history.go:171-179 | Each of the ten unsafe characters becomes '_', every other character is kept, the length is kept |
| History.SanitizedIdempotent | history.go:171-179 | Sanitizing twice is sanitizing once |
| History.HistoryEntryFilename | history.go:166-168 | The name starts with the entry's "2006-01-02_15-04-05" timestamp and ends in ".yaml"; `FilenameLayout` and `FilenameOrderIsChronological` state its layout and order, and `SaveHistoryEntry` writes under it |
| History.FilenameLayout | history.go:166-168 | The name is year, month, day, hour, minute, second zero-padded and separated as "YYYY-MM-DD_HH-MM-SS", then "_", the sanitized context name and ".yaml" |
| History.FieldThenRest | history.go:151-154 | A smaller fixed-width field, or an equal field and a smaller remainder, gives a smaller name |
| History.FilenameOrderIsChronological | history.go:151-154 | For four-digit years, an entry from an earlier second has a strictly smaller file name |
| History.HistoryNamesMembers | history.go:140-145 | The candidate names are exactly those of non-directory ".yaml" entries |
| History.FilterHistoryFiles | history.go:139-145 | The filter loop keeps the non-directory ".yaml" names in listing order |
| History.PruneHistory | history.go:128-163 | Nothing is deleted with at most 100 candidates; otherwise exactly n-100 of them are deleted, all no larger than any kept one; directories and other names are never deleted |
| History.SortedPrefixIsSmallest | history.go:151-160 | The first k names of the sorted list are the k smallest |
| History.AfterWriteNewName | history.go:61-66 | Writing a new ".yaml" name adds exactly that name to the candidates |
| History.SaveHistoryEntry | history.go:43-67 | Writes under the entry's file name; a failed write, or a failed listing of the directory by `PruneHistory` after it, is an error with nothing pruned; after a write to a full directory exactly the oldest name is pruned, and below 100 nothing |
| History.SingleRemovalIsOldest | history.go:147-160 | When pruning removes one name, it is the smallest listed name |
| History.LoadableMembers | history.go:87-97 | Listed entries are exactly the loadable non-directory ".yaml" files |
| History.NewestFirstIsTotal | history.go:99-102 | "Newer or same" is a total preorder, so the sort is well defined |
| History.ListHistoryEntries | history.go:70-105 | A missing directory lists nothing, a failed listing is an error; otherwise the loadable entries, as a permutation, newest first |
| History.RequestPreview | history.go:182-200 | "(no request)" for an empty request, "(empty)" for a blank first line, otherwise the trimmed first line, cut to 47 bytes plus "..." when over 50; never empty, never over 50, no newline |
| History.PreviewIgnoresLaterLines | history.go:187-189 | Only the first line matters |
| Prompt.Terminated | main.go:928-930 | The body ends with a newline, which is added only when missing |
| Prompt.TerminatedStable | main.go:928-930 | Terminating is idempotent; "x" and "x\n" give the same block |
| Prompt.Section | main.go:924-942 | A tagged block is empty exactly when its body is |
| Prompt.Header | main.go:911-942 | Every document starts with the fixed preamble |
| Prompt.HeaderWithoutSections | main.go:924-942 | With no project context and no request the header is the preamble alone |
| Prompt.DisplayPathRoundTrip | main.go:967-977 | Under the root (normalised to end in '/'), putting the root back gives the path; a path outside it is shown unchanged |
| Prompt.SiblingNotUnderRoot | main.go:969-976 | Root "/a/b" does not claim "/a/bc..." |
| Prompt.FileBlock | main.go:979-984 | A file block opens with `<file path="D">` and closes with `</file>` and a blank line |
| Prompt.Document | main.go:908-985 | The document starts with the preamble |
| Prompt.NothingReadable | main.go:962-965 | Unreadable files leave no trace |
| Prompt.ReplayMatchesLive | main.go:1051-1064 | A replay writes the same blocks as a live yank with no project root |
| Prompt.WriteSection | main.go:924-942 | The builder writes exactly `Section` after what is already written |
| Prompt.WriteFileBlock | main.go:979-984 | The builder writes exactly `FileBlock`; a newline is added only after non-empty unterminated content |
| Prompt.WriteHeader | main.go:909-942 | The builder writes exactly the header |
| Prompt.ComputeDisplayPath | main.go:967-977 | The loop body's display path is `DisplayPath` |
| Prompt.LiveBlock | main.go:957-985 | One live file writes its block with the display path if it reads, else nothing |
| Prompt.ReplayBlock | main.go:1052-1064 | One stored file writes its block with the stored path if it reads, else nothing |
| Prompt.WriteReplayBlocks | main.go:1051-1064 | The replay loop writes the blocks of the readable stored paths in list order |
| Files.HomeRelativeRoundTrip | main.go:220-225 | A path under "home/" is "home/" plus its relative path; any other path is kept whole |
| Files.FirstUnskipped | main.go:231-244 | The scan stops at the first part that is not a skip prefix |
| Files.ProjectIndex | main.go:227-244 | The project is the first part that is not a skip prefix, or part 0 when all are |
| Files.IsSkipPrefix | main.go:233-239 | The inner loop answers whether the part is a skip prefix |
| Files.BuildFileInfo | main.go:205-259 | The row has the path, the stat size (0 and missing when stat fails), is unselected, and has the project and relative path split as `FileInfoOf` |
| Files.FileInfoSplitIsLossless | main.go:246-256 | The project is one path element; the skipped parts, the project and the relative path rejoin to the path below home |
| Files.Infos | main.go:162-165 | One row per context path, in order |
| Files.LargerFirstIsTotal | main.go:167-170 | "Larger or same" is a total preorder |
| Files.GroupByDir | main.go:177-191 | The map has one folder per parent directory, holding its row count and byte total |
| Files.CountRow | main.go:180-190 | One row bumps its folder or starts it with count 1 |
| Files.GroupStep | main.go:179-191 | One more row keeps the map's description of the rows so far |
| Files.MapValues | main.go:193-197 | The list holds each folder of the map once |
| Files.RefreshFolders | main.go:175-203 | One folder per distinct parent directory, strictly ascending by path, with its count and size |
| Files.SortedFoldersAscend | main.go:199-202 | Sorting distinct folders leaves the paths strictly ascending |
| Files.FolderTotals | main.go:175-203 | Folder counts sum to the number of rows, and folder sizes to `totalSize` |
| Files.WeightSizes | main.go:261-267 | Counting and summing sizes over the rows gives the row count and `totalSize` |
| Navigation.VisibleFileRows | main.go:605-613 | Height less five reserved lines, never fewer than three |
| Navigation.ScrollKeepsView | main.go:409-445 | Up and down keep the cursor inside the visible window |
| Navigation.ScrollSteps | main.go:409-445 | Up moves the cursor back one unless at the top, down forward one unless at the last row; the offset moves only the matching way |
| Navigation.DownThenUp | main.go:409-445 | Down then up returns the cursor |
| Navigation.BoxesCycle | main.go:507-519 | `[` and `]` cycle the three boxes, are inverse, and return after three steps |
| Navigation.IndexOf | main.go:524-530 | The first index of the current name, or -1 when it is not listed |
| Navigation.CycleSteps | main.go:521-553 | `}` moves to the next name, wrapping to the first; `{` to the previous, wrapping to the last |
| Navigation.CycleRoundTrip | main.go:521-553 | `{` undoes `}` and `}` undoes `{` |
| Navigation.CycleFromUnlisted | main.go:531-551 | From an unlisted context, `}` picks the first name and `{` the last |
| Navigation.SetAll | main.go:462-464 | Every row gets the same flag and nothing else changes |
| Navigation.ToggleAllAlternates | main.go:453-464 | `*` selects all unless all are selected, in which case it deselects all; a third press equals the first |
| Navigation.ClampInRange | main.go:1097-1100 | The corrected clamp is never negative, is on a row whenever one is left, keeps a valid cursor, and agrees with the source whenever rows remain |
| Display.FormatSizeReadsBack | main.go:2326-2331 | Below 1024 the label is the size's digits and "B"; otherwise the digits of the size in whole kilobytes, rounded down, and "KB" |
| Display.StripAnsi | main.go:1979-1997 | The escape-state loop gives the visible text |
| Display.VisibleBounds | main.go:1979-1997 | Stripping never lengthens, never leaves ESC, and keeps only characters of the input |
| Display.PlainTextVisible | main.go:1979-1997 | Text without ESC is left unchanged |
| Display.VisibleConcat | main.go:1983-1995 | Stripping a concatenation strips the parts, carrying the escape state across |
| Display.EscapeSequenceInvisible | main.go:1984-1992 | ESC, non-letter parameters and a final letter vanish |
| Display.PadRight | main.go:1970-1977 | The string is kept and only spaces follow |
| Display.PadRightWidth | main.go:1970-1977 | Padding reaches the requested visible width or keeps a wider string, unless the string ends inside an escape sequence, which swallows the padding |
| App.RowsAreContextPaths | main.go:161-165 | The rows are those of the context paths: as many, and the same paths |
| App.EmptyContextHasNoRows | main.go:161-203 | An empty context has no rows and no folders |
| App.BuildAll | main.go:162-165 | The loop builds `buildFileInfo` of each context path in order |
| App.Rebuild | main.go:161-173 | The rows are a permutation of the built rows sorted larger first, and the folders describe them |
| App.NoneMissing | main.go:944-954 | No missing row exactly when every row exists |
| App.CountMissing | main.go:945-950 | The loop counts the missing rows |
| App.SelectedPathsMembers | main.go:1079-1084 | The collected paths are exactly those of selected rows, no more than the rows |
| App.CountSelected | main.go:269-277 | `selectedCount` is the number of selected rows |
| App.CollectSelected | main.go:1079-1084 | The loop collects the selected rows' paths in row order |
| App.AllRowsSelected | main.go:455-461 | The early-exit loop decides "all selected" |
| App.ToggleTwice | main.go:447-451 | Space flips one row's flag and nothing else; twice is no change |
| App.DeletionEffect | main.go:1074-1089 | With a selection, exactly the selected paths go; otherwise the cursor row's path, or nothing when the cursor is off the rows |
| App.CollectFolders | main.go:665-675 | The selected folders' paths, or the cursor folder's when none is selected |
| App.KeepOutsideIsKeep | main.go:677-692 | Dropping files whose parent is a deleted folder is a `Keep` of those files |
| App.FolderDeleteEffect | main.go:677-692 | Exactly the files whose parent directory is not a deleted folder remain |
| App.FilesOutside | main.go:677-692 | The filter loop keeps those files in order |
| App.WriteLiveBlocks | main.go:956-985 | The live loop writes the blocks of the readable rows in row order |
| App.CollectPaths | main.go:993-996 | The history entry lists every row's path in row order |
| App.Model.constructor | main.go:102-159 | The model starts in the normal mode on the context tab with the request box active, height 24, every cursor and offset 0, no history entries, and rows rebuilt from the loaded context; when the configured context fails to load, the "default" context is loaded and becomes the active one |
| App.Model.RefreshFiles | main.go:161-173 | The rows and folders are rebuilt from the context's paths |
| App.Model.MoveUp | main.go:409-426 | Up moves the history or file cursor, whichever tab is active, and leaves the other |
| App.Model.MoveDown | main.go:428-445 | Down moves the history or file cursor, whichever tab is active, and leaves the other |
| App.Model.ToggleSelection | main.go:447-451 | Space flips the cursor row, or does nothing past the end |
| App.Model.ToggleAll | main.go:453-464 | `*` applies the select-all toggle |
| App.Model.ClearFiles | main.go:466-472 | `D` empties the context, the rows and the folders, and resets cursor and offset |
| App.Model.PrevBox | main.go:507-512 | `[` moves to the previous box, wrapping |
| App.Model.NextBox | main.go:514-519 | `]` moves to the next box, wrapping |
| App.Model.ShowContextTab | main.go:561-565 | `<` shows the context tab |
| App.Model.ShowHistoryTab | main.go:567-576 | `>` from the context tab loads the history newest first and resets its cursor; on the history tab nothing changes |
| App.Model.SwitchToContext | main.go:615-626 | A loadable context replaces the current one, rows are rebuilt and cursor and offset reset; otherwise nothing changes |
| App.Model.CycleTarget | main.go:521-553 | The context `{`/`}` pick, none with fewer than two contexts |
| App.Model.CycleContext | main.go:521-553 | `{`/`}` switch to the previous/next context, wrapping |
| App.Model.AddPaths | main.go:881-886 | Each expanded path is added once, and the count is the number actually added |
| App.Model.ProcessPaste | main.go:857-906 | Blank input is ignored; a relative path, a missing path and an expansion error change nothing; a directory adds its visible files; a file is appended unless listed; a failed save keeps the rows |
| App.Model.RemoveChosen | main.go:1074-1089 | The context loses exactly the chosen paths, and the selected count is returned |
| App.Model.DeleteSelected | main.go:1074-1106 | The chosen paths leave the context; after a good save the rows are rebuilt and the cursor is clamped onto a row (never -1); a failed save leaves the rows and cursor |
| App.Model.ClampAndRefresh | main.go:1094-1099 | The rows are rebuilt from the context and the cursor is clamped (corrected) onto a row when there is one, never below 0 |
| App.Model.DeleteFolders | main.go:663-705 | Files in the deleted folders leave the context, the rows are rebuilt, the folder cursor is clamped as written, and the view returns to normal when no folder is left |
| App.Model.SettleFolderView | main.go:696-704 | The folder cursor clamp and the return to the normal view |
| App.Model.Yank | main.go:908-1007 | With a missing row nothing is copied and the count is reported; a failed copy saves nothing; otherwise the exact document is copied, and the saved history entry holds the time, the context's name and texts and every row path in row order, under its timestamped file name; with no project root, replaying that entry gives back the copied document |
| App.Model.YankHistoryEntry | main.go:1009-1072 | No entry under the cursor gives nothing; otherwise the stored texts and readable stored files, paths verbatim, with no history save |

## Left out

- The terminal UI is not modelled: views, rendering, styles, the Bubble Tea dispatch, the text-area editing and the selection dialogs (context/exclude select, new context, add-file input, config view, context-delete confirmation). It is presentation or input plumbing with no contract.
- The reload key and the folder view's navigation keys (`f`, up/down/space in the folder view) are not modelled. Only the folder-delete branch is.
- The `y` key's choice between the two yanks (main.go:474-478) is not modelled as a method; `Yank` and `YankHistoryEntry` are the two branches.
- The status messages are not modelled: `setStatus` does nothing observable. Outcomes are returned as values instead.
- YAML encoding and decoding, and all file I/O, are parameters. This covers `os.ReadFile`, `WriteFile`, `Stat`, `Remove`, `ReadDir`, `UserHomeDir`, the clipboard (clipboard.go) and config.go.
- `LoadContext` is a lookup function. The model trusts the name stored in the file, as the tool does.
- `time.Now` is a parameter. Time zones, `FormatTimestamp` and `LoadHistoryEntry`'s parsing are left out.
- `doublestar.Match` is uninterpreted: glob semantics live in a foreign library.
- `sort.Slice` is specified only as a sorted permutation: it is not stable, so the order of ties is not modelled. `Sorting.Sort` stands in for it.
- Paths.Dir: `filepath.Clean`'s removal of `.`, `..` and repeated separators is not modelled. `Dir` is exact for clean paths.
- Paths.JoinPath: joins one clean element only, without `Clean`.
- Strings are sequences of `char`, one per byte. `stripAnsi` walks runes and `len` counts bytes; the two agree on ASCII text only.
- Strings.TrimSpace: trims ASCII white space only (space, tab, newline, vertical tab, form feed, carriage return). Unicode spaces are not modelled.
- Sizes are unbounded naturals: `int64` overflow of the size sums is not modelled.
- History.FilenameOrderIsChronological: stated for years 0 to 9999 only, because wider or negative years change the field width and the order.
- History.SaveHistoryEntry: states which names are pruned only when the new name is not yet listed and at most 100 names were listed before. In general it states a sub-multiset of the names, and `History.PruneHistory` states the full rule.
- App.Model.Yank: states only whether the history save succeeded, not which names its pruning removed. That is `History.SaveHistoryEntry`'s contract.
- History.SaveHistoryEntry: the listing `PruneHistory` reads after the write is taken to be the listing before it with the new file added; another process changing the directory in between is not modelled.
- `initialModel`'s exits (main.go:110-157) are not modelled: the constructor is given what loaded, and a failure of the "default" context, the configuration, the exclude rule or the context list ends the program. Saving the configuration with "default" as the active context (main.go:133-135) is not modelled either; the constructor only records the active name.
- App.Model.DeleteSelected: uses the corrected clamp (see Findings), so it does not reproduce the cursor of -1.
- App.Model.DeleteFolders: ignores the `SaveContext` result and does not clamp the file cursor, as the source does. A failed save is not modelled there or in `ClearFiles`.
- `buildFileInfo`'s branch for a project index past the end (main.go:253-256) cannot be taken, because `strings.Split` returns at least one part. The model has no such branch, and `Files.ProjectIndex` proves the index is always in range.

## Findings

| source | as written | input that shows it | evidently intended | confidence | as-written member | corrected member |
|---|---|---|---|---|---|---|
| main.go:1097-1100 | After a deletion, a cursor at or past the end moves to `len(m.files) - 1` when positive | Two rows, both selected, cursor on the second row (1), press `d`: no rows are left and the cursor becomes -1; a following space then evaluates `m.files[-1]` (main.go:449-450 checks only `m.cursor < len(m.files)`) | The cursor stays at 0 when no rows are left | high (not executed) | Navigation.ClampAsWritten, Navigation.ClampAsWrittenGoesNegative | Navigation.Clamp, Navigation.ClampInRange, App.Model.DeleteSelected |
