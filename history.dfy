/**
  * The prompt history (history.go): every copied prompt is saved as one YAML
  * file in the history directory, named after its timestamp and context; at
  * most `MaxHistoryEntries` files are kept, the oldest by name are deleted.
  * The directory listing, the file loader and the outcome of the write are
  * parameters; YAML encoding is not modelled.
  */
module History {

  import opened Strings
  import opened Sorting
  import opened Wrappers

  const MaxHistoryEntries := 100

  // ---------------------------------------------------------------------------
  // Time, as the calendar fields of a `time.Time` in one zone.
  // ---------------------------------------------------------------------------

  datatype Timestamp = Timestamp(year: int, month: int, day: int, hour: int, minute: int, second: int, nanosecond: int)

  /** The field ranges every `time.Time` has. */
  predicate ValidTime(t: Timestamp) {
    && 1 <= t.month <= 12 && 1 <= t.day <= 31
    && 0 <= t.hour < 24 && 0 <= t.minute < 60 && 0 <= t.second < 60
    && 0 <= t.nanosecond < 1000000000
  }

  /** `a` is strictly earlier than `b` up to whole seconds (nanoseconds ignored). */
  predicate SecondBefore(a: Timestamp, b: Timestamp) {
    || a.year < b.year
    || (a.year == b.year && a.month < b.month)
    || (a.year == b.year && a.month == b.month && a.day < b.day)
    || (a.year == b.year && a.month == b.month && a.day == b.day && a.hour < b.hour)
    || (a.year == b.year && a.month == b.month && a.day == b.day && a.hour == b.hour && a.minute < b.minute)
    || (a.year == b.year && a.month == b.month && a.day == b.day && a.hour == b.hour && a.minute == b.minute
        && a.second < b.second)
  }

  predicate SameSecond(a: Timestamp, b: Timestamp) {
    a.year == b.year && a.month == b.month && a.day == b.day && a.hour == b.hour && a.minute == b.minute
    && a.second == b.second
  }

  /** `time.Time.Before`: strictly earlier, nanoseconds included. */
  predicate Before(a: Timestamp, b: Timestamp) {
    SecondBefore(a, b) || (SameSecond(a, b) && a.nanosecond < b.nanosecond)
  }

  /** `time.Format`'s "2006": at least four digits, a '-' in front of a negative year. */
  function YearField(year: int): string {
    if year < 0 then "-" + ZeroPad(-year, 4) else ZeroPad(year, 4)
  }

  /** `t.Format("2006-01-02_15-04-05")`. */
  function Stamp(t: Timestamp): string
    requires ValidTime(t)
  {
    YearField(t.year) + "-" + ZeroPad(t.month, 2) + "-" + ZeroPad(t.day, 2) + "_"
    + ZeroPad(t.hour, 2) + "-" + ZeroPad(t.minute, 2) + "-" + ZeroPad(t.second, 2)
  }

  // ---------------------------------------------------------------------------
  // File names.
  // ---------------------------------------------------------------------------

  /** The characters `sanitizeFilename` replaces, in the order it replaces them. */
  const UnsafeChars: seq<char> := ['/', '\\', ':', '*', '?', '"', '<', '>', '|', ' ']

  predicate IsUnsafe(c: char) {
    c in UnsafeChars
  }

  /** Go's `strings.ReplaceAll(s, string(old), string(new))` for one-character strings. */
  function ReplaceAll(s: string, from: char, to: char): (r: string)
    ensures |r| == |s|
    ensures forall i :: 0 <= i < |s| ==> r[i] == (if s[i] == from then to else s[i])
  {
    if s == [] then [] else [if s[0] == from then to else s[0]] + ReplaceAll(s[1..], from, to)
  }

  /** What `sanitizeFilename` makes of `name`: each unsafe character becomes '_'. */
  function Sanitized(name: string): string {
    seq(|name|, i requires 0 <= i < |name| => if IsUnsafe(name[i]) then '_' else name[i])
  }

  /** `sanitizeFilename`: one `ReplaceAll` per unsafe character, applied in turn. */
  method SanitizeFilename(name: string) returns (result: string)
    ensures result == Sanitized(name)
    ensures |result| == |name|
    ensures forall i :: 0 <= i < |result| ==> !IsUnsafe(result[i])
  {
    result := name;
    var k := 0;
    while k < |UnsafeChars|
      invariant 0 <= k <= |UnsafeChars|
      invariant |result| == |name|
      invariant forall i :: 0 <= i < |name| ==>
        result[i] == (if name[i] in UnsafeChars[..k] then '_' else name[i])
    {
      result := ReplaceAll(result, UnsafeChars[k], '_');
      assert UnsafeChars[..k + 1] == UnsafeChars[..k] + [UnsafeChars[k]];
      k := k + 1;
    }
    assert UnsafeChars[..k] == UnsafeChars;
  }

  /** Sanitizing keeps the length, leaves safe characters alone and removes every unsafe one. */
  lemma SanitizedCharacters(name: string)
    ensures |Sanitized(name)| == |name|
    ensures forall i :: 0 <= i < |name| && !IsUnsafe(name[i]) ==> Sanitized(name)[i] == name[i]
    ensures forall i :: 0 <= i < |name| && IsUnsafe(name[i]) ==> Sanitized(name)[i] == '_'
    ensures forall c :: c in Sanitized(name) ==> !IsUnsafe(c)
  {
  }

  /** Sanitizing a sanitized name changes nothing. */
  lemma SanitizedIdempotent(name: string)
    ensures Sanitized(Sanitized(name)) == Sanitized(name)
  {
  }

  /** A history entry as saved: when, from which context, and the prompt's inputs. */
  datatype HistoryEntry = HistoryEntry(
    timestamp: Timestamp,
    contextName: string,
    projectContext: string,
    request: string,
    files: seq<string>)

  /**
    * Go's `HistoryEntryFilename`: the file an entry is stored under, e.g.
    * "2025-01-15_14-30-45_work.yaml". `SaveHistoryEntry` writes under this name.
    */
  function HistoryEntryFilename(entry: HistoryEntry): (r: string)
    requires ValidTime(entry.timestamp)
    ensures HasSuffix(r, ".yaml") && Stamp(entry.timestamp) <= r
  {
    Stamp(entry.timestamp) + "_" + Sanitized(entry.contextName) + ".yaml"
  }

  /** The digits of an entry's file name, right-nested field by field. */
  lemma {:induction false} FilenameLayout(e: HistoryEntry)
    requires ValidTime(e.timestamp) && e.timestamp.year >= 0
    ensures var t := e.timestamp;
      HistoryEntryFilename(e) ==
        ZeroPad(t.year, 4) + ("-" + (ZeroPad(t.month, 2) + ("-" + (ZeroPad(t.day, 2) + ("_" +
        (ZeroPad(t.hour, 2) + ("-" + (ZeroPad(t.minute, 2) + ("-" + (ZeroPad(t.second, 2) +
        ("_" + (Sanitized(e.contextName) + ".yaml"))))))))))))
  {
  }

  /**
    * Two strings that each start with a fixed-width field and a separator:
    * a smaller field, or an equal field and a smaller remainder, makes a smaller string.
    */
  lemma FieldThenRest(a: nat, b: nat, width: nat, sep: string, x: string, y: string)
    requires width >= 1 && a < Pow10(width) && b < Pow10(width)
    requires a < b || (a == b && Less(x, y))
    ensures Less(ZeroPad(a, width) + (sep + x), ZeroPad(b, width) + (sep + y))
  {
    ZeroPadLength(a, width);
    ZeroPadLength(b, width);
    if a < b {
      ZeroPadOrder(a, b, width);
      LessExtend(ZeroPad(a, width), ZeroPad(b, width), sep + x, sep + y);
    } else {
      LessAfterCommonPrefix(sep, x, y);
      LessAfterCommonPrefix(ZeroPad(a, width), sep + x, sep + y);
    }
  }

  /**
    * For four-digit years, file-name order is chronological order: an entry
    * saved in an earlier second has a smaller name, whatever the context names.
    */
  lemma FilenameOrderIsChronological(e1: HistoryEntry, e2: HistoryEntry)
    requires ValidTime(e1.timestamp) && ValidTime(e2.timestamp)
    requires 0 <= e1.timestamp.year <= 9999 && 0 <= e2.timestamp.year <= 9999
    requires SecondBefore(e1.timestamp, e2.timestamp)
    ensures Less(HistoryEntryFilename(e1), HistoryEntryFilename(e2))
  {
    var t1, t2 := e1.timestamp, e2.timestamp;
    assert Pow10(2) == 100 && Pow10(4) == 10000;
    FilenameLayout(e1);
    FilenameLayout(e2);
    var n1, n2 := Sanitized(e1.contextName) + ".yaml", Sanitized(e2.contextName) + ".yaml";
    var sec1, sec2 := ZeroPad(t1.second, 2) + ("_" + n1), ZeroPad(t2.second, 2) + ("_" + n2);
    var min1, min2 := ZeroPad(t1.minute, 2) + ("-" + sec1), ZeroPad(t2.minute, 2) + ("-" + sec2);
    var hour1, hour2 := ZeroPad(t1.hour, 2) + ("-" + min1), ZeroPad(t2.hour, 2) + ("-" + min2);
    var day1, day2 := ZeroPad(t1.day, 2) + ("_" + hour1), ZeroPad(t2.day, 2) + ("_" + hour2);
    var month1, month2 := ZeroPad(t1.month, 2) + ("-" + day1), ZeroPad(t2.month, 2) + ("-" + day2);
    var inSecond := t1.second < t2.second;
    var inMinute := t1.minute < t2.minute || (t1.minute == t2.minute && inSecond);
    var inHour := t1.hour < t2.hour || (t1.hour == t2.hour && inMinute);
    var inDay := t1.day < t2.day || (t1.day == t2.day && inHour);
    var inMonth := t1.month < t2.month || (t1.month == t2.month && inDay);
    if inSecond {
      FieldThenRest(t1.second, t2.second, 2, "_", n1, n2);
    }
    if inMinute {
      FieldThenRest(t1.minute, t2.minute, 2, "-", sec1, sec2);
    }
    if inHour {
      FieldThenRest(t1.hour, t2.hour, 2, "-", min1, min2);
    }
    if inDay {
      FieldThenRest(t1.day, t2.day, 2, "_", hour1, hour2);
    }
    if inMonth {
      FieldThenRest(t1.month, t2.month, 2, "-", day1, day2);
    }
    FieldThenRest(t1.year, t2.year, 4, "-", month1, month2);
  }

  // ---------------------------------------------------------------------------
  // Retention.
  // ---------------------------------------------------------------------------

  /** One entry of `os.ReadDir` on the history directory. */
  datatype DirEntry = DirEntry(name: string, isDir: bool)

  /** The entries that count as saved history: plain files ending in ".yaml". */
  predicate IsHistoryFile(e: DirEntry) {
    !e.isDir && HasSuffix(e.name, ".yaml")
  }

  /** The names of the history files of a listing, in listing order. */
  function HistoryNames(entries: seq<DirEntry>): (r: seq<string>)
    ensures |r| <= |entries|
  {
    if entries == [] then []
    else
      var last := entries[|entries| - 1];
      HistoryNames(entries[..|entries| - 1]) + (if IsHistoryFile(last) then [last.name] else [])
  }

  /** A name is among `HistoryNames` exactly when a plain ".yaml" entry carries it. */
  lemma {:induction false} HistoryNamesMembers(entries: seq<DirEntry>, x: string)
    ensures x in HistoryNames(entries) <==>
      exists i :: 0 <= i < |entries| && IsHistoryFile(entries[i]) && entries[i].name == x
  {
    if entries != [] {
      var init := entries[..|entries| - 1];
      HistoryNamesMembers(init, x);
      if x in HistoryNames(init) {
        var i :| 0 <= i < |init| && IsHistoryFile(init[i]) && init[i].name == x;
        assert entries[i] == init[i];
      }
      if exists i :: 0 <= i < |entries| && IsHistoryFile(entries[i]) && entries[i].name == x {
        var i :| 0 <= i < |entries| && IsHistoryFile(entries[i]) && entries[i].name == x;
        if i < |init| {
          assert init[i] == entries[i];
        }
      }
    }
  }

  /** `PruneHistory`'s filter loop: the names of the plain ".yaml" entries, in listing order. */
  method FilterHistoryFiles(entries: seq<DirEntry>) returns (yamlFiles: seq<string>)
    ensures yamlFiles == HistoryNames(entries)
  {
    yamlFiles := [];
    var i := 0;
    while i < |entries|
      invariant 0 <= i <= |entries|
      invariant yamlFiles == HistoryNames(entries[..i])
    {
      if !entries[i].isDir && HasSuffix(entries[i].name, ".yaml") {
        yamlFiles := yamlFiles + [entries[i].name];
      }
      assert entries[..i + 1][..i] == entries[..i];
      i := i + 1;
    }
    assert entries[..i] == entries;
  }

  /**
    * `PruneHistory`'s choice of files to delete: when more than
    * `MaxHistoryEntries` history files are listed, the surplus with the smallest
    * names (the oldest), in ascending order. Failures to delete are ignored by
    * the tool, so the names chosen are the result. `entries` is what its
    * `os.ReadDir` returned; that call's error is `SaveHistoryEntry`'s `relisted`.
    */
  method PruneHistory(entries: seq<DirEntry>) returns (removed: seq<string>)
    ensures var names := HistoryNames(entries);
      && (|names| <= MaxHistoryEntries ==> removed == [])
      && (|names| > MaxHistoryEntries ==> |removed| == |names| - MaxHistoryEntries)
      && multiset(removed) <= multiset(names)
      && SortedBy(removed, LessEq)
      && (forall x, y :: x in removed && y in multiset(names) - multiset(removed) ==> LessEq(x, y))
  {
    var yamlFiles := FilterHistoryFiles(entries);
    if |yamlFiles| <= MaxHistoryEntries {
      return [];
    }
    StringOrder();
    var sorted := Sort(yamlFiles, LessEq);
    var toDelete := |sorted| - MaxHistoryEntries;
    removed := [];
    var k := 0;
    while k < toDelete
      invariant 0 <= k <= toDelete
      invariant removed == sorted[..k]
    {
      removed := removed + [sorted[k]];
      k := k + 1;
    }
    SortedPrefixIsSmallest(sorted, yamlFiles, toDelete);
  }

  /** The first `k` of a sorted permutation of `names` are at most everything else in `names`. */
  lemma SortedPrefixIsSmallest(sorted: seq<string>, names: seq<string>, k: nat)
    requires SortedBy(sorted, LessEq) && multiset(sorted) == multiset(names) && k <= |sorted|
    ensures multiset(sorted[..k]) <= multiset(names)
    ensures SortedBy(sorted[..k], LessEq)
    ensures forall x, y :: x in sorted[..k] && y in multiset(names) - multiset(sorted[..k]) ==> LessEq(x, y)
  {
    SplitMultiset(sorted, names, k);
    forall x, y | x in sorted[..k] && y in multiset(names) - multiset(sorted[..k]) ensures LessEq(x, y) {
      var a :| 0 <= a < k && sorted[a] == x;
      assert y in sorted[k..];
      var b :| k <= b < |sorted| && sorted[b] == y;
      assert LessEq(sorted[a], sorted[b]);
    }
  }

  /** What is left of `names` once the first `k` of its permutation `sorted` are taken is the rest of `sorted`. */
  lemma SplitMultiset(sorted: seq<string>, names: seq<string>, k: nat)
    requires multiset(sorted) == multiset(names) && k <= |sorted|
    ensures multiset(sorted[..k]) <= multiset(names)
    ensures multiset(names) - multiset(sorted[..k]) == multiset(sorted[k..])
  {
    assert sorted == sorted[..k] + sorted[k..];
  }

  /** The listing once `name` has been written as a plain file (an old file of that name is replaced). */
  function AfterWrite(entries: seq<DirEntry>, name: string): seq<DirEntry> {
    if entries == [] then [DirEntry(name, false)]
    else if entries[0].name == name then AfterWrite(entries[1..], name)
    else [entries[0]] + AfterWrite(entries[1..], name)
  }

  /** Writing a name not yet listed adds it to the history names and changes nothing else. */
  lemma {:induction false} AfterWriteNewName(entries: seq<DirEntry>, name: string)
    requires forall i :: 0 <= i < |entries| ==> entries[i].name != name
    requires HasSuffix(name, ".yaml")
    ensures HistoryNames(AfterWrite(entries, name)) == HistoryNames(entries) + [name]
  {
    if entries != [] {
      AfterWriteNewName(entries[1..], name);
      HistoryNamesCons(entries[0], entries[1..]);
      HistoryNamesCons(entries[0], AfterWrite(entries[1..], name));
      assert entries == [entries[0]] + entries[1..];
    } else {
      assert HistoryNames([DirEntry(name, false)]) == HistoryNames([]) + [name];
    }
  }

  lemma {:induction false} HistoryNamesCons(e: DirEntry, rest: seq<DirEntry>)
    ensures HistoryNames([e] + rest) == (if IsHistoryFile(e) then [e.name] else []) + HistoryNames(rest)
    decreases |rest|
  {
    if rest != [] {
      var init := rest[..|rest| - 1];
      HistoryNamesCons(e, init);
      assert ([e] + rest)[..|[e] + rest| - 1] == [e] + init;
    } else {
      assert HistoryNames([e]) == HistoryNames([]) + (if IsHistoryFile(e) then [e.name] else []);
      assert [e] + rest == [e];
    }
  }

  /**
    * `SaveHistoryEntry`: write the entry under its file name, then prune.
    * `entries` is the directory before the save; `written` is whether the
    * directory could be made and the file written; `relisted` is whether
    * `PruneHistory`'s own `os.ReadDir` of the directory then succeeded. On
    * success the result holds the names pruning deleted; a failed listing is
    * an error with nothing deleted.
    */
  method SaveHistoryEntry(entry: HistoryEntry, entries: seq<DirEntry>, written: bool, relisted: bool)
    returns (name: string, result: Result<seq<string>>)
    requires ValidTime(entry.timestamp)
    ensures name == HistoryEntryFilename(entry)
    ensures result.Ok? <==> written && relisted
    ensures result.Ok? ==> multiset(result.value) <= multiset(HistoryNames(AfterWrite(entries, name)))
    ensures (result.Ok? && |HistoryNames(entries)| < MaxHistoryEntries
             && forall i :: 0 <= i < |entries| ==> entries[i].name != name) ==> result.value == []
    ensures (result.Ok? && |HistoryNames(entries)| == MaxHistoryEntries
             && forall i :: 0 <= i < |entries| ==> entries[i].name != name) ==>
              && |result.value| == 1
              && result.value[0] in HistoryNames(entries) + [name]
              && forall y :: y in HistoryNames(entries) + [name] ==> LessEq(result.value[0], y)
  {
    name := HistoryEntryFilename(entry);
    if !written || !relisted {
      return name, Failed;
    }
    var removed := PruneHistory(AfterWrite(entries, name));
    result := Ok(removed);
    if |HistoryNames(entries)| <= MaxHistoryEntries && forall i :: 0 <= i < |entries| ==> entries[i].name != name {
      AfterWriteNewName(entries, name);
      var names := HistoryNames(entries) + [name];
      if |HistoryNames(entries)| == MaxHistoryEntries {
        SingleRemovalIsOldest(names, removed);
      }
    }
  }

  /** When pruning removes a single name, that name is listed and no later than any listed name. */
  lemma SingleRemovalIsOldest(names: seq<string>, removed: seq<string>)
    requires |removed| == 1 && multiset(removed) <= multiset(names)
    requires forall x, y :: x in removed && y in multiset(names) - multiset(removed) ==> LessEq(x, y)
    ensures removed[0] in names
    ensures forall y :: y in names ==> LessEq(removed[0], y)
  {
    assert removed[0] in multiset(names);
    forall y | y in names ensures LessEq(removed[0], y) {
      if y == removed[0] {
        LessEqReflexive(y);
      } else {
        assert y in multiset(names) - multiset(removed);
      }
    }
  }

  // ---------------------------------------------------------------------------
  // Listing.
  // ---------------------------------------------------------------------------

  /** What the history directory looks like to `ListHistoryEntries`. */
  datatype Listing =
    | NoDirectory                   // `os.Stat` says it does not exist
    | ListFailed                    // `os.ReadDir` failed
    | Listed(entries: seq<DirEntry>)

  /** The entries of the history files that load, in listing order. */
  function Loadable(entries: seq<DirEntry>, load: string -> Option<HistoryEntry>): seq<HistoryEntry> {
    if entries == [] then []
    else
      var last := entries[|entries| - 1];
      Loadable(entries[..|entries| - 1], load)
      + (if IsHistoryFile(last) && load(last.name).Some? then [load(last.name).value] else [])
  }

  /** An entry is listed exactly when some history file loads as it. */
  lemma {:induction false} LoadableMembers(entries: seq<DirEntry>, load: string -> Option<HistoryEntry>, h: HistoryEntry)
    ensures h in Loadable(entries, load) <==>
      exists i :: 0 <= i < |entries| && IsHistoryFile(entries[i]) && load(entries[i].name) == Some(h)
  {
    if entries != [] {
      var init := entries[..|entries| - 1];
      LoadableMembers(init, load, h);
      if h in Loadable(init, load) {
        var i :| 0 <= i < |init| && IsHistoryFile(init[i]) && load(init[i].name) == Some(h);
        assert entries[i] == init[i];
      }
      if exists i :: 0 <= i < |entries| && IsHistoryFile(entries[i]) && load(entries[i].name) == Some(h) {
        var i :| 0 <= i < |entries| && IsHistoryFile(entries[i]) && load(entries[i].name) == Some(h);
        if i < |init| {
          assert init[i] == entries[i];
        }
      }
    }
  }

  /** The order `ListHistoryEntries` sorts by: `a` is not older than `b`. */
  predicate NewerOrSame(a: HistoryEntry, b: HistoryEntry) {
    !Before(a.timestamp, b.timestamp)
  }

  lemma NewestFirstIsTotal()
    ensures TotalPreorder(NewerOrSame)
  {
  }

  /**
    * `ListHistoryEntries`: no directory is an empty history, an unreadable one
    * an error; otherwise every history file that loads, newest first.
    */
  method ListHistoryEntries(listing: Listing, load: string -> Option<HistoryEntry>)
    returns (result: Result<seq<HistoryEntry>>)
    ensures listing.NoDirectory? ==> result == Ok([])
    ensures listing.ListFailed? ==> result == Failed
    ensures listing.Listed? ==> result.Ok?
    ensures listing.Listed? ==> multiset(result.value) == multiset(Loadable(listing.entries, load))
    ensures listing.Listed? ==> SortedBy(result.value, NewerOrSame)
  {
    match listing
    case NoDirectory => return Ok([]);
    case ListFailed => return Failed;
    case Listed(entries) =>
      var historyEntries: seq<HistoryEntry> := [];
      var i := 0;
      while i < |entries|
        invariant 0 <= i <= |entries|
        invariant historyEntries == Loadable(entries[..i], load)
      {
        var e := entries[i];
        assert entries[..i + 1][..i] == entries[..i];
        if !e.isDir && HasSuffix(e.name, ".yaml") {
          var loaded := load(e.name);
          if loaded.Some? {
            historyEntries := historyEntries + [loaded.value];
          }
        }
        i := i + 1;
      }
      assert entries[..i] == entries;
      NewestFirstIsTotal();
      return Ok(Sort(historyEntries, NewerOrSame));
  }

  // ---------------------------------------------------------------------------
  // Preview.
  // ---------------------------------------------------------------------------

  const PreviewWidth := 50

  /** The request's first line without surrounding white space. */
  function FirstLine(request: string): string {
    TrimSpace(Split(request, '\n')[0])
  }

  /**
    * `RequestPreview`: "(no request)" for no request, "(empty)" when the first
    * line is blank, otherwise that line, cut to 47 bytes and "..." when longer
    * than 50.
    */
  function RequestPreview(request: string): (r: string)
    ensures 0 < |r| <= PreviewWidth && '\n' !in r
    ensures request == "" ==> r == "(no request)"
    ensures request != "" && FirstLine(request) == "" ==> r == "(empty)"
    ensures request != "" && 0 < |FirstLine(request)| <= PreviewWidth ==> r == FirstLine(request)
    ensures request != "" && |FirstLine(request)| > PreviewWidth ==>
      |r| == PreviewWidth && r[..PreviewWidth - 3] == FirstLine(request)[..PreviewWidth - 3] && r[PreviewWidth - 3..] == "..."
  {
    if request == "" then "(no request)"
    else
      var preview := FirstLine(request);
      assert '\n' !in preview;
      var preview' := if |preview| > PreviewWidth then preview[..PreviewWidth - 3] + "..." else preview;
      if preview' == "" then "(empty)" else preview'
  }

  /** `Split`'s first piece is everything before the first separator. */
  lemma {:induction false} SplitFirstPiece(a: string, sep: char, rest: string)
    requires sep !in a
    ensures Split(a + [sep] + rest, sep)[0] == a
  {
    if a != [] {
      SplitFirstPiece(a[1..], sep, rest);
      assert (a + [sep] + rest)[1..] == a[1..] + [sep] + rest;
      assert a == [a[0]] + a[1..];
    }
  }

  /** The preview depends on the first line only. */
  lemma PreviewIgnoresLaterLines(line: string, rest: string)
    requires line != "" && '\n' !in line
    ensures RequestPreview(line + "\n" + rest) == RequestPreview(line)
  {
    SplitFirstPiece(line, '\n', rest);
    SplitFirstPiece(line, '\n', "");
    SplitJoin([line], '\n');
  }
}
