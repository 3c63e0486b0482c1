/** Go's `path/filepath` functions the tool calls, on '/'-separated paths. */
module Paths {

  /** `path` without its trailing separators. */
  function TrimTrailingSlashes(path: string): (r: string)
    ensures r <= path
    ensures r == [] || r[|r| - 1] != '/'
    ensures forall i :: |r| <= i < |path| ==> path[i] == '/'
  {
    if path != [] && path[|path| - 1] == '/' then TrimTrailingSlashes(path[..|path| - 1]) else path
  }

  /** The characters after the last separator (all of `path` when there is none). */
  function LastSegment(path: string): (r: string)
    ensures '/' !in r
    ensures |r| <= |path| && r == path[|path| - |r|..]
    ensures |r| < |path| ==> path[|path| - |r| - 1] == '/'
  {
    if path == [] || path[|path| - 1] == '/' then []
    else LastSegment(path[..|path| - 1]) + [path[|path| - 1]]
  }

  /** Go's `filepath.Base`: the last element of `path`, "." for "" and "/" for all separators. */
  function Base(path: string): (r: string)
    ensures r != []
    ensures r == "/" || '/' !in r
  {
    if path == [] then "."
    else
      var trimmed := TrimTrailingSlashes(path);
      if trimmed == [] then "/" else LastSegment(trimmed)
  }

  /**
    * Go's `filepath.Dir`: everything before the last element. The last element
    * is dropped one character at a time; once the path ends with a separator,
    * trailing separators are dropped. The `.`/`..`/`//` clean-up of
    * `filepath.Clean` is not modelled.
    */
  function Dir(path: string): (r: string)
    ensures r != []
  {
    if path == [] then "."
    else if path[|path| - 1] != '/' then Dir(path[..|path| - 1])
    else
      var trimmed := TrimTrailingSlashes(path);
      if trimmed == [] then "/" else trimmed
  }

  /** What `Dir` makes of the part of a path before its last element: "." when empty, "/" when only separators. */
  function CutDir(upTo: string): string {
    if upTo == [] then "."
    else
      var trimmed := TrimTrailingSlashes(upTo);
      if trimmed == [] then "/" else trimmed
  }

  /** `Dir` cuts `path` just before its last element and drops the separators there. */
  lemma {:induction false} DirCutsLastSegment(path: string)
    ensures Dir(path) == CutDir(path[..|path| - |LastSegment(path)|])
  {
    if path != [] && path[|path| - 1] != '/' {
      DirCutsLastSegment(path[..|path| - 1]);
      SameCut(path);
    }
  }

  /** Dropping a last character that is not a separator leaves the part before the last element as it was. */
  lemma SameCut(path: string)
    requires path != [] && path[|path| - 1] != '/'
    ensures var shorter := path[..|path| - 1];
      path[..|path| - |LastSegment(path)|] == shorter[..|shorter| - |LastSegment(shorter)|]
  {
    var shorter := path[..|path| - 1];
    assert |LastSegment(path)| == |LastSegment(shorter)| + 1;
    var cut := |shorter| - |LastSegment(shorter)|;
    assert path[..cut] == shorter[..cut];
  }

  /** Go's `filepath.Join(dir, name)` for a single-element `name` (no clean-up). */
  function JoinPath(dir: string, name: string): (r: string)
    ensures dir <= r && |name| <= |r| && name == r[|r| - |name|..]
  {
    if dir != [] && dir[|dir| - 1] == '/' then dir + name else dir + "/" + name
  }

  /** A file directly inside a directory reports that directory as its `Dir`. */
  lemma {:induction false} DirOfJoin(dir: string, name: string)
    requires '/' !in name
    requires dir != [] && dir[|dir| - 1] != '/'
    ensures Dir(JoinPath(dir, name)) == dir
    decreases |name|
  {
    var p := JoinPath(dir, name);
    assert p == dir + "/" + name;
    if name == [] {
      assert p[..|p| - 1] == dir;
      assert TrimTrailingSlashes(p) == TrimTrailingSlashes(dir) == dir;
    } else {
      var shorter := name[..|name| - 1];
      assert p[|p| - 1] == name[|name| - 1] != '/';
      assert p[..|p| - 1] == dir + "/" + shorter == JoinPath(dir, shorter);
      DirOfJoin(dir, shorter);
    }
  }

  lemma {:induction false} LastSegmentOfJoin(dir: string, name: string)
    requires '/' !in name
    ensures LastSegment(dir + "/" + name) == name
    decreases |name|
  {
    var p := dir + "/" + name;
    if name == [] {
      assert p[|p| - 1] == '/';
    } else {
      var shorter := name[..|name| - 1];
      assert p[..|p| - 1] == dir + "/" + shorter;
      LastSegmentOfJoin(dir, shorter);
      assert name == shorter + [name[|name| - 1]];
    }
  }
}
