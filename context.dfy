/**
  * A named context: project description, task request and the ordered list of
  * file paths handed to the prompt (`Context` in context.go). Loading, saving,
  * listing and deleting context files are I/O and are not part of this module.
  */
module Contexts {

  import opened Sorting

  /** `files` with every element of `drop` left out, survivors in their original order. */
  function Keep(files: seq<string>, drop: set<string>): (r: seq<string>)
    ensures |r| <= |files|
    ensures forall x :: x in r <==> x in files && x !in drop
  {
    if files == [] then []
    else
      var last := files[|files| - 1];
      Keep(files[..|files| - 1], drop) + (if last in drop then [] else [last])
  }

  /** Filtering distributes over concatenation: the survivors keep their relative order. */
  lemma {:induction false} KeepConcat(a: seq<string>, b: seq<string>, drop: set<string>)
    ensures Keep(a + b, drop) == Keep(a, drop) + Keep(b, drop)
    decreases |b|
  {
    if b != [] {
      var b' := b[..|b| - 1];
      assert (a + b)[..|a + b| - 1] == a + b';
      KeepConcat(a, b', drop);
    } else {
      assert a + b == a;
    }
  }

  /** Nothing to drop leaves the list as it is. */
  lemma {:induction false} KeepNothing(files: seq<string>, drop: set<string>)
    requires forall x :: x in files ==> x !in drop
    ensures Keep(files, drop) == files
  {
    if files != [] {
      var init, last := files[..|files| - 1], files[|files| - 1];
      assert files == init + [last];
      assert forall x :: x in init ==> x in files;
      KeepNothing(init, drop);
      assert last !in drop;
    }
  }

  /** Removing twice is removing once. */
  lemma KeepIdempotent(files: seq<string>, drop: set<string>)
    ensures Keep(Keep(files, drop), drop) == Keep(files, drop)
  {
    KeepNothing(Keep(files, drop), drop);
  }

  /** Two removals in a row are one removal of the union. */
  lemma {:induction false} KeepTwice(files: seq<string>, a: set<string>, b: set<string>)
    ensures Keep(Keep(files, a), b) == Keep(files, a + b)
  {
    if files != [] {
      var init := files[..|files| - 1];
      var last := files[|files| - 1];
      KeepTwice(init, a, b);
      KeepConcat(Keep(init, a), if last in a then [] else [last], b);
    }
  }

  /** Removing the paths of `ps` one at a time, in order (`RemoveFile` repeatedly). */
  function RemoveEach(files: seq<string>, ps: seq<string>): seq<string>
    decreases ps
  {
    if ps == [] then files else RemoveEach(Keep(files, {ps[0]}), ps[1..])
  }

  /** Removing a whole list at once equals removing its paths one after another. */
  lemma {:induction false} RemoveAllAtOnce(files: seq<string>, ps: seq<string>)
    ensures Keep(files, set p | p in ps) == RemoveEach(files, ps)
    decreases ps
  {
    if ps == [] {
      assert (set p | p in ps) == {};
      KeepNothing(files, {});
    } else {
      RemoveAllAtOnce(Keep(files, {ps[0]}), ps[1..]);
      KeepTwice(files, {ps[0]}, set p | p in ps[1..]);
      assert (set p | p in ps) == {ps[0]} + (set p | p in ps[1..]);
    }
  }

  /** Filtering never introduces a repeat. */
  lemma {:induction false} KeepDistinct(files: seq<string>, drop: set<string>)
    requires Distinct(files)
    ensures Distinct(Keep(files, drop))
  {
    if files != [] {
      var init := files[..|files| - 1];
      KeepDistinct(init, drop);
      assert files[|files| - 1] !in init;
    }
  }

  /** What `AddFile` leaves: `files` with `path` appended when it is absent. */
  function Added(files: seq<string>, path: string): seq<string> {
    if path in files then files else files + [path]
  }

  /** Adding keeps a repeat-free list repeat-free and loses nothing. */
  lemma AddedDistinct(files: seq<string>, path: string)
    requires Distinct(files)
    ensures Distinct(Added(files, path))
    ensures forall x :: x in Added(files, path) <==> x in files || x == path
  {
  }

  /** Adding each path of `ps` in order (`AddFile` in a loop). */
  function AddEach(files: seq<string>, ps: seq<string>): seq<string>
    decreases ps
  {
    if ps == [] then files else AddEach(Added(files, ps[0]), ps[1..])
  }

  /** Adding a list: the old files stay first and in order, each new path is there once. */
  lemma {:induction false} AddEachProperties(files: seq<string>, ps: seq<string>)
    requires Distinct(files)
    ensures Distinct(AddEach(files, ps))
    ensures files <= AddEach(files, ps)
    ensures forall x :: x in AddEach(files, ps) <==> x in files || x in ps
    decreases ps
  {
    if ps != [] {
      AddedDistinct(files, ps[0]);
      AddEachProperties(Added(files, ps[0]), ps[1..]);
    }
  }

  /** Adding one more path at the end of the list is one more `Added` after the others. */
  lemma {:induction false} AddEachSnoc(files: seq<string>, ps: seq<string>, p: string)
    ensures AddEach(files, ps + [p]) == Added(AddEach(files, ps), p)
    decreases ps
  {
    if ps == [] {
      assert [p][1..] == [];
    } else {
      assert (ps + [p])[1..] == ps[1..] + [p];
      AddEachSnoc(Added(files, ps[0]), ps[1..], p);
    }
  }

  /** The `map[string]bool` set `RemoveFiles` builds: a path looks up `true` exactly when it is listed. */
  method LookupSet(paths: seq<string>) returns (pathSet: map<string, bool>)
    ensures forall p :: (p in pathSet && pathSet[p]) <==> p in paths
  {
    pathSet := map[];
    var i := 0;
    while i < |paths|
      invariant 0 <= i <= |paths|
      invariant forall p :: (p in pathSet && pathSet[p]) <==> p in paths[..i]
    {
      pathSet := pathSet[paths[i] := true];
      assert paths[..i + 1] == paths[..i] + [paths[i]];
      i := i + 1;
    }
    assert paths[..i] == paths;
  }

  /** The in-memory record of one context file. */
  class Context {
    var name: string
    var projectRoot: string
    var projectContext: string
    var request: string
    var files: seq<string>

    constructor (name: string, projectRoot: string, projectContext: string, request: string, files: seq<string>)
      ensures this.name == name && this.projectRoot == projectRoot
      ensures this.projectContext == projectContext && this.request == request
      ensures this.files == files
    {
      this.name := name;
      this.projectRoot := projectRoot;
      this.projectContext := projectContext;
      this.request := request;
      this.files := files;
    }

    /** Appends `path` unless it is already listed; says whether it did. */
    method AddFile(path: string) returns (added: bool)
      modifies this`files
      ensures added <==> path !in old(files)
      ensures files == Added(old(files), path)
      ensures added ==> files == old(files) + [path]
      ensures Distinct(old(files)) ==> Distinct(files)
    {
      var i := 0;
      while i < |files|
        invariant 0 <= i <= |files|
        invariant path !in files[..i]
      {
        if files[i] == path {
          return false;
        }
        i := i + 1;
      }
      assert files[..i] == files;
      files := files + [path];
      return true;
    }

    /** Drops every occurrence of `path`; the other files keep their order. */
    method RemoveFile(path: string)
      modifies this`files
      ensures files == Keep(old(files), {path})
    {
      var newFiles: seq<string> := [];
      var i := 0;
      while i < |files|
        invariant 0 <= i <= |files|
        invariant newFiles == Keep(files[..i], {path})
      {
        if files[i] != path {
          newFiles := newFiles + [files[i]];
        }
        assert files[..i + 1][..i] == files[..i];
        i := i + 1;
      }
      assert files[..i] == files;
      files := newFiles;
    }

    /** Drops every file listed in `paths`, through a lookup set, in one pass. */
    method RemoveFiles(paths: seq<string>)
      modifies this`files
      ensures files == Keep(old(files), set p | p in paths)
    {
      var pathSet := LookupSet(paths);
      ghost var drop := set p | p in paths;
      var newFiles: seq<string> := [];
      var j := 0;
      while j < |files|
        invariant 0 <= j <= |files|
        invariant newFiles == Keep(files[..j], drop)
      {
        var f := files[j];
        if !(f in pathSet && pathSet[f]) {
          newFiles := newFiles + [f];
        }
        assert files[..j + 1][..j] == files[..j];
        j := j + 1;
      }
      assert files[..j] == files;
      files := newFiles;
    }
  }
}
