/**
  * The document `yank` and `yankHistoryEntry` put on the clipboard (main.go):
  * a fixed preamble, the optional `<project_context>` and `<request>` blocks,
  * then one `<file path="...">` block per readable file.
  * File contents come from a `read` parameter standing for `os.ReadFile`.
  */
module Prompt {

  import opened Strings
  import opened Wrappers

  /** The fixed text every document starts with. */
  const Preamble: string :=
    "This is a structured prompt for a software development task.\n\n"
    + "<project_context> describes the project: its purpose, tech stack, architecture, and coding conventions. "
    + "Use this to understand the broader context.\n\n"
    + "<request> contains the specific task or question to address. This is what you should focus on accomplishing.\n\n"
    + "<file> tags contain the relevant source files. Each file has a path attribute. "
    + "Use these to understand the current implementation and make appropriate changes.\n\n"
    + "---\n\n"

  /** `body` with a '\n' added unless it already ends with one. */
  function Terminated(body: string): (r: string)
    ensures HasSuffix(r, "\n") && body <= r
  {
    if HasSuffix(body, "\n") then body else body + "\n"
  }

  /** Terminating twice is terminating once; "task" and "task\n" end up alike. */
  lemma TerminatedStable(body: string)
    ensures Terminated(Terminated(body)) == Terminated(body)
    ensures !HasSuffix(body, "\n") ==> Terminated(body + "\n") == Terminated(body)
  {
  }

  /** A tagged block, left out entirely when `body` is empty. */
  function Section(tag: string, body: string): (r: string)
    ensures r == "" <==> body == ""
  {
    if body == "" then "" else "<" + tag + ">\n" + Terminated(body) + "</" + tag + ">\n\n"
  }

  /** Everything before the file blocks. */
  function Header(projectContext: string, request: string): (r: string)
    ensures Preamble <= r
  {
    Preamble + Section("project_context", projectContext) + Section("request", request)
  }

  /** With neither text, the header is the preamble alone. */
  lemma HeaderWithoutSections()
    ensures Header("", "") == Preamble
  {
  }

  /** The path written in a file block: relative to the project root when the file lies under it. */
  function DisplayPath(projectRoot: string, path: string): string {
    if projectRoot == "" then path
    else
      var root := if HasSuffix(projectRoot, "/") then projectRoot else projectRoot + "/";
      TrimPrefix(path, root)
  }

  /** The root as it is compared: with exactly one added '/' when it had none. */
  function RootDir(projectRoot: string): string {
    if HasSuffix(projectRoot, "/") then projectRoot else projectRoot + "/"
  }

  /**
    * Putting the root back in front of a display path gives the full path;
    * a path outside the root is shown as it is.
    */
  lemma DisplayPathRoundTrip(projectRoot: string, path: string)
    requires projectRoot != ""
    ensures RootDir(projectRoot) <= path ==> RootDir(projectRoot) + DisplayPath(projectRoot, path) == path
    ensures !(RootDir(projectRoot) <= path) ==> DisplayPath(projectRoot, path) == path
  {
  }

  /** A sibling whose name only starts like the root's last segment is not under it: "/a/b" does not claim "/a/bc". */
  lemma SiblingNotUnderRoot(projectRoot: string, rest: string)
    requires projectRoot != "" && !HasSuffix(projectRoot, "/")
    requires rest != "" && rest[0] != '/'
    ensures DisplayPath(projectRoot, projectRoot + rest) == projectRoot + rest
  {
    assert (projectRoot + rest)[|projectRoot|] == rest[0];
  }

  /** One file block; a '\n' is added only after non-empty content that lacks one. */
  function FileBlock(displayPath: string, content: string): (r: string)
    ensures ("<file path=\"" + displayPath + "\">\n") <= r
    ensures HasSuffix(r, "</file>\n\n")
  {
    var body := if content == "" then "" else Terminated(content);
    var r := "<file path=\"" + displayPath + "\">\n" + body + "</file>\n\n";
    assert r[|r| - 9..] == "</file>\n\n";
    r
  }

  /** The file blocks of a live yank: readable files in list order, paths shown relative to the root. */
  function FileBlocks(paths: seq<string>, projectRoot: string, read: string -> Option<string>): string {
    if paths == [] then ""
    else
      var last := paths[|paths| - 1];
      FileBlocks(paths[..|paths| - 1], projectRoot, read)
      + (if read(last).Some? then FileBlock(DisplayPath(projectRoot, last), read(last).value) else "")
  }

  /** The file blocks of a history replay: readable files in list order, paths written as stored. */
  function ReplayBlocks(paths: seq<string>, read: string -> Option<string>): string {
    if paths == [] then ""
    else
      var last := paths[|paths| - 1];
      ReplayBlocks(paths[..|paths| - 1], read)
      + (if read(last).Some? then FileBlock(last, read(last).value) else "")
  }

  /** The whole clipboard document. */
  function Document(projectContext: string, request: string, blocks: string): (r: string)
    ensures Preamble <= r
  {
    Header(projectContext, request) + blocks
  }

  /** Unreadable files leave no trace: with no readable file, the document is the header alone. */
  lemma {:induction false} NothingReadable(paths: seq<string>, projectRoot: string, read: string -> Option<string>)
    requires forall i :: 0 <= i < |paths| ==> read(paths[i]).None?
    ensures FileBlocks(paths, projectRoot, read) == ""
    ensures ReplayBlocks(paths, read) == ""
  {
    if paths != [] {
      NothingReadable(paths[..|paths| - 1], projectRoot, read);
    }
  }

  /**
    * Replaying the saved list reproduces the live document when no project root
    * was set and the files read the same: only the root stripping tells them apart.
    */
  lemma {:induction false} ReplayMatchesLive(paths: seq<string>, read: string -> Option<string>)
    ensures ReplayBlocks(paths, read) == FileBlocks(paths, "", read)
  {
    if paths != [] {
      ReplayMatchesLive(paths[..|paths| - 1], read);
    }
  }

  /** One more path adds its block (if it reads) after the blocks of the paths before it. */
  lemma BlocksStep(paths: seq<string>, projectRoot: string, read: string -> Option<string>, i: int)
    requires 0 <= i < |paths|
    ensures FileBlocks(paths[..i + 1], projectRoot, read)
      == FileBlocks(paths[..i], projectRoot, read)
         + (if read(paths[i]).Some? then FileBlock(DisplayPath(projectRoot, paths[i]), read(paths[i]).value) else "")
    ensures ReplayBlocks(paths[..i + 1], read)
      == ReplayBlocks(paths[..i], read) + (if read(paths[i]).Some? then FileBlock(paths[i], read(paths[i]).value) else "")
  {
    assert paths[..i + 1][..i] == paths[..i];
  }

  // ---------------------------------------------------------------------------
  // Writing the document piece by piece, as the builder in main.go does.
  // ---------------------------------------------------------------------------

  /** A non-empty section is its opening tag, the terminated body and its closing tag. */
  lemma SectionPieces(tag: string, body: string, text: string)
    requires body != ""
    requires text == if HasSuffix(body, "\n") then body else body + "\n"
    ensures Section(tag, body) == ("<" + tag + ">\n") + text + ("</" + tag + ">\n\n")
  {
  }

  /** Writes a tagged block the way `yank` does, or nothing for an empty body. */
  method WriteSection(sb: string, tag: string, body: string) returns (r: string)
    ensures r == sb + Section(tag, body)
  {
    r := sb;
    if body != "" {
      var open := "<" + tag + ">\n";
      var text := body;
      if !HasSuffix(body, "\n") {
        text := text + "\n";
      }
      var close := "</" + tag + ">\n\n";
      SectionPieces(tag, body, text);
      r := r + (open + text + close);
    }
  }

  /** Writes one file block the way `yank` does. */
  method WriteFileBlock(sb: string, displayPath: string, content: string) returns (r: string)
    ensures r == sb + FileBlock(displayPath, content)
  {
    var open := "<file path=\"" + displayPath + "\">\n";
    var body := content;
    if |content| > 0 && content[|content| - 1] != '\n' {
      body := body + "\n";
    }
    assert content != "" ==> (HasSuffix(content, "\n") <==> content[|content| - 1] == '\n');
    assert body == if content == "" then "" else Terminated(content);
    var block := open + body + "</file>\n\n";
    assert block == FileBlock(displayPath, content);
    r := sb + block;
  }

  /** Writes the preamble and the two optional blocks. */
  method WriteHeader(projectContext: string, request: string) returns (sb: string)
    ensures sb == Header(projectContext, request)
  {
    sb := Preamble;
    sb := WriteSection(sb, "project_context", projectContext);
    sb := WriteSection(sb, "request", request);
  }

  /** One pass of `yank`'s file loop for an existing row: its block, shown relative to the root, if it reads. */
  method LiveBlock(path: string, projectRoot: string, read: string -> Option<string>) returns (block: string)
    ensures block == if read(path).Some? then FileBlock(DisplayPath(projectRoot, path), read(path).value) else ""
  {
    block := "";
    var content := read(path);
    if content.Some? {
      var displayPath := ComputeDisplayPath(projectRoot, path);
      block := WriteFileBlock("", displayPath, content.value);
    }
  }

  /** One pass of `yankHistoryEntry`'s file loop: the path's block, written as stored, if it reads. */
  method ReplayBlock(path: string, read: string -> Option<string>) returns (block: string)
    ensures block == if read(path).Some? then FileBlock(path, read(path).value) else ""
  {
    block := "";
    var content := read(path);
    if content.Some? {
      block := WriteFileBlock("", path, content.value);
    }
  }

  /** The file loop of `yankHistoryEntry`: every readable stored path, written as stored. */
  method WriteReplayBlocks(sb: string, paths: seq<string>, read: string -> Option<string>) returns (r: string)
    ensures r == sb + ReplayBlocks(paths, read)
  {
    var blocks := "";
    var i := 0;
    while i < |paths|
      invariant 0 <= i <= |paths|
      invariant blocks == ReplayBlocks(paths[..i], read)
    {
      BlocksStep(paths, "", read, i);
      var block := ReplayBlock(paths[i], read);
      blocks := blocks + block;
      i := i + 1;
    }
    assert paths[..i] == paths;
    r := sb + blocks;
  }


  /** The display path of one file, computed as `yank` does it. */
  method ComputeDisplayPath(projectRoot: string, path: string) returns (displayPath: string)
    ensures displayPath == DisplayPath(projectRoot, path)
  {
    displayPath := path;
    if projectRoot != "" {
      var root := projectRoot;
      if !HasSuffix(root, "/") {
        root := root + "/";
      }
      if HasPrefix(path, root) {
        displayPath := TrimPrefix(path, root);
      }
    }
  }
}
