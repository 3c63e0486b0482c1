/**
  * The small state machines of the main view's key handler (main.go): the
  * scrolling cursor of a list, the three boxes `[`/`]` cycle through, the
  * contexts `{`/`}` cycle through, select-all, and the cursor clamp after a
  * deletion.
  */
module Navigation {

  import opened Sorting
  import opened Files

  // ---------------------------------------------------------------------------
  // visibleFileRows
  // ---------------------------------------------------------------------------

  /** Lines of the view that are not list rows: title, two separators, header, key bindings. */
  const ReservedRows: int := 5
  const MinVisibleRows: int := 3

  /** `visibleFileRows`: the terminal height less the reserved lines, but never fewer than three rows. */
  function VisibleFileRows(height: int): (r: int)
    ensures r >= MinVisibleRows
    ensures r >= height - ReservedRows
    ensures r == height - ReservedRows || r == MinVisibleRows
  {
    var available := height - ReservedRows;
    if available < MinVisibleRows then MinVisibleRows else available
  }

  // ---------------------------------------------------------------------------
  // Cursor and scroll offset ("up"/"k", "down"/"j")
  // ---------------------------------------------------------------------------

  /** The highlighted row and the first row shown. */
  datatype Scroll = Scroll(cursor: int, offset: int)

  /** One row up: the window follows the cursor when it leaves the top. */
  function ScrollUp(s: Scroll): Scroll {
    if s.cursor > 0 then
      var c := s.cursor - 1;
      Scroll(c, if c < s.offset then c else s.offset)
    else s
  }

  /** One row down, stopping at the last of `count` rows; the window follows past the bottom of `rows` lines. */
  function ScrollDown(s: Scroll, count: int, rows: int): Scroll {
    if s.cursor < count - 1 then
      var c := s.cursor + 1;
      Scroll(c, if c >= s.offset + rows then c - rows + 1 else s.offset)
    else s
  }

  /** The cursor is on a row (or on 0 in an empty list) and inside the window of `rows` lines. */
  predicate InView(s: Scroll, count: int, rows: int) {
    && 0 <= s.offset <= s.cursor < s.offset + rows
    && (s.cursor < count || s.cursor == 0)
  }

  /** Scrolling either way keeps the cursor on a row and inside the window. */
  lemma ScrollKeepsView(s: Scroll, count: int, rows: int)
    requires rows >= 1 && InView(s, count, rows)
    ensures InView(ScrollUp(s), count, rows)
    ensures InView(ScrollDown(s, count, rows), count, rows)
  {
  }

  /** Up moves one row unless at the top; down moves one row unless at the last row. */
  lemma ScrollSteps(s: Scroll, count: int, rows: int)
    ensures ScrollUp(s).cursor == if s.cursor > 0 then s.cursor - 1 else s.cursor
    ensures ScrollDown(s, count, rows).cursor == if s.cursor < count - 1 then s.cursor + 1 else s.cursor
    ensures ScrollUp(s).offset <= s.offset
    ensures s.offset <= ScrollDown(s, count, rows).offset
  {
  }

  /** Down then up comes back to the same row, and the window still shows it. */
  lemma DownThenUp(s: Scroll, count: int, rows: int)
    requires rows >= 1 && InView(s, count, rows) && s.cursor < count - 1
    ensures ScrollUp(ScrollDown(s, count, rows)).cursor == s.cursor
    ensures InView(ScrollUp(ScrollDown(s, count, rows)), count, rows)
  {
    ScrollKeepsView(s, count, rows);
    ScrollKeepsView(ScrollDown(s, count, rows), count, rows);
  }

  // ---------------------------------------------------------------------------
  // The three boxes ("[", "]")
  // ---------------------------------------------------------------------------

  /** The boxes in their on-screen order. */
  const BoxRequest: int := 0
  const BoxFiles: int := 1
  const BoxProjectContext: int := 2

  predicate IsBox(b: int) {
    BoxRequest <= b <= BoxProjectContext
  }

  /** "]": the next box, from the last back to the first. */
  function NextBox(b: int): int {
    if b + 1 > BoxProjectContext then BoxRequest else b + 1
  }

  /** "[": the previous box, from the first round to the last. */
  function PrevBox(b: int): int {
    if b - 1 < 0 then BoxProjectContext else b - 1
  }

  /** The two keys undo each other and three presses of either come back. */
  lemma BoxesCycle(b: int)
    requires IsBox(b)
    ensures IsBox(NextBox(b)) && IsBox(PrevBox(b))
    ensures PrevBox(NextBox(b)) == b && NextBox(PrevBox(b)) == b
    ensures NextBox(NextBox(NextBox(b))) == b && PrevBox(PrevBox(PrevBox(b))) == b
    ensures NextBox(b) != b && PrevBox(b) != b
  {
  }

  // ---------------------------------------------------------------------------
  // Context cycling ("{", "}")
  // ---------------------------------------------------------------------------

  /** The index of the first occurrence of `x` in `names`, or -1. */
  function IndexOf(names: seq<string>, x: string): (i: int)
    ensures -1 <= i < |names|
    ensures i >= 0 ==> names[i] == x && forall k :: 0 <= k < i ==> names[k] != x
    ensures i == -1 <==> x !in names
  {
    if names == [] then -1
    else if names[0] == x then 0
    else
      var j := IndexOf(names[1..], x);
      if j == -1 then -1 else j + 1
  }

  /** "{": the context before the current one, from the first (or an unlisted one) round to the last. */
  function PrevContext(names: seq<string>, current: string): string
    requires |names| > 1
  {
    var i := IndexOf(names, current);
    if i > 0 then names[i - 1] else names[|names| - 1]
  }

  /** "}": the context after the current one, from the last round to the first; an unlisted one goes to the first. */
  function NextContext(names: seq<string>, current: string): string
    requires |names| > 1
  {
    var i := IndexOf(names, current);
    if i < |names| - 1 then names[i + 1] else names[0]
  }

  /** In a list without repeats a name is found at its own index. */
  lemma IndexOfDistinct(names: seq<string>, k: int)
    requires Distinct(names) && 0 <= k < |names|
    ensures IndexOf(names, names[k]) == k
  {
  }

  /** Over distinct names, "}" moves to the successor and "{" to the predecessor, wrapping at the ends. */
  lemma CycleSteps(names: seq<string>, k: int)
    requires |names| > 1 && Distinct(names) && 0 <= k < |names|
    ensures NextContext(names, names[k]) == if k < |names| - 1 then names[k + 1] else names[0]
    ensures PrevContext(names, names[k]) == if k > 0 then names[k - 1] else names[|names| - 1]
  {
    IndexOfDistinct(names, k);
  }

  /** Over distinct names, "{" undoes "}" and "}" undoes "{"; both always land on a listed name. */
  lemma CycleRoundTrip(names: seq<string>, current: string)
    requires |names| > 1 && Distinct(names) && current in names
    ensures NextContext(names, current) in names && PrevContext(names, current) in names
    ensures PrevContext(names, NextContext(names, current)) == current
    ensures NextContext(names, PrevContext(names, current)) == current
  {
    var k := IndexOf(names, current);
    var n := |names|;
    CycleSteps(names, k);
    var next := if k < n - 1 then k + 1 else 0;
    var prev := if k > 0 then k - 1 else n - 1;
    CycleSteps(names, next);
    CycleSteps(names, prev);
  }

  /** A current context missing from the list counts as "before the first": "}" goes to the first, "{" to the last. */
  lemma CycleFromUnlisted(names: seq<string>, current: string)
    requires |names| > 1 && current !in names
    ensures NextContext(names, current) == names[0]
    ensures PrevContext(names, current) == names[|names| - 1]
  {
  }

  // ---------------------------------------------------------------------------
  // Select-all ("*")
  // ---------------------------------------------------------------------------

  predicate AllSelected(files: seq<FileInfo>) {
    forall i :: 0 <= i < |files| ==> files[i].selected
  }

  /** Every row with its selection set to `v`. */
  function SetAll(files: seq<FileInfo>, v: bool): (r: seq<FileInfo>)
    ensures |r| == |files|
    ensures forall i :: 0 <= i < |files| ==> r[i] == files[i].(selected := v)
  {
    if files == [] then [] else SetAll(files[..|files| - 1], v) + [files[|files| - 1].(selected := v)]
  }

  /** "*": select every row, unless all already are, in which case clear every row. */
  function ToggledAll(files: seq<FileInfo>): seq<FileInfo> {
    SetAll(files, !AllSelected(files))
  }

  /**
    * After "*", all rows are selected exactly when they were not all selected
    * before; on a non-empty list a second "*" leaves every row as the first
    * row was before the first press would have left them all (all selected
    * when all were, all cleared otherwise), and from then on "*" alternates.
    */
  lemma ToggleAllAlternates(files: seq<FileInfo>)
    requires files != []
    ensures AllSelected(ToggledAll(files)) <==> !AllSelected(files)
    ensures ToggledAll(ToggledAll(files)) == SetAll(files, AllSelected(files))
    ensures ToggledAll(ToggledAll(ToggledAll(files))) == ToggledAll(files)
  {
    var once := ToggledAll(files);
    if AllSelected(files) {
      assert !once[0].selected;
    }
    var twice := ToggledAll(once);
    if AllSelected(files) {
      assert twice == SetAll(files, true);
    } else {
      assert !twice[0].selected;
      assert twice == SetAll(files, false);
    }
    var thrice := ToggledAll(twice);
    assert thrice == once;
  }

  // ---------------------------------------------------------------------------
  // The cursor after a deletion
  // ---------------------------------------------------------------------------

  /** `deleteSelected`'s clamp as written: a cursor past the end moves to `count - 1`, which is -1 when no rows are left. */
  function ClampAsWritten(cursor: int, count: int): int {
    if cursor >= count && cursor > 0 then count - 1 else cursor
  }

  /** Deleting the last two rows with the cursor on the second leaves the cursor at -1. */
  lemma ClampAsWrittenGoesNegative()
    ensures ClampAsWritten(1, 0) == -1
    ensures !(0 <= ClampAsWritten(1, 0))
  {
  }

  /** The clamp the model uses: a cursor past the end moves to the last row, or to 0 when no rows are left. */
  function Clamp(cursor: int, count: int): int {
    if cursor >= count && cursor > 0 then (if count > 0 then count - 1 else 0) else cursor
  }

  /** The clamped cursor is never negative, is on a row whenever there is one, and is left alone when already on a row. */
  lemma ClampInRange(cursor: int, count: int)
    requires cursor >= 0 && count >= 0
    ensures 0 <= Clamp(cursor, count)
    ensures count > 0 ==> Clamp(cursor, count) < count
    ensures cursor < count ==> Clamp(cursor, count) == cursor
    ensures count > 0 ==> Clamp(cursor, count) == ClampAsWritten(cursor, count)
  {
  }
}
