/** `git status --porcelain`: what git prints for a working tree, and how
    `porcelain_entries` and `parse_unmerged_files` read it. */
module Porcelain {
  import opened Text
  import opened Trimming

  /** One changed path with its two-letter status code. */
  datatype Entry = Entry(code: string, path: string)

  function Print(entries: seq<Entry>): string {
    if entries == [] then ""
    else (entries[0].code + " " + entries[0].path) + ['\n'] + Print(entries[1..])
  }

  /** The filter and map of `porcelain_entries`. */
  function ReadEntries(lines: seq<string>): seq<Entry> {
    if lines == [] then []
    else
      (if |lines[0]| >= 3 then [Entry(lines[0][..2], TrimEnd(lines[0][3..]))] else []) + ReadEntries(lines[1..])
  }

  function PorcelainEntries(stdout: string): seq<Entry> {
    ReadEntries(Lines(stdout))
  }

  function PathsOf(entries: seq<Entry>): seq<string> {
    if entries == [] then [] else [entries[0].path] + PathsOf(entries[1..])
  }

  /** `parse_porcelain_files`. */
  function ParsePorcelainFiles(stdout: string): seq<string> {
    PathsOf(PorcelainEntries(stdout))
  }

  /** The codes `parse_unmerged_files` takes for a conflict. */
  predicate LooksUnmerged(code: string) {
    code == "AA" || code == "DD" || 'U' in code
  }

  function UnmergedOf(entries: seq<Entry>): seq<string> {
    if entries == [] then []
    else (if LooksUnmerged(entries[0].code) then [entries[0].path] else []) + UnmergedOf(entries[1..])
  }

  function ParseUnmergedFiles(stdout: string): seq<string> {
    UnmergedOf(PorcelainEntries(stdout))
  }

  /** Git's own unmerged codes. */
  predicate IsUnmerged(code: string) {
    code in ["DD", "AU", "UD", "UA", "DU", "AA", "UU"]
  }

  /** What git prints: a two-letter code, `U` only for unmerged paths, and a path
      without line breaks or trailing white space (git quotes any other). */
  predicate GitEntry(e: Entry) {
    && |e.code| == 2 && Lacks(e.code, '\n') && ('U' in e.code ==> IsUnmerged(e.code))
    && Lacks(e.path, '\n') && TrimEnd(e.path) == e.path
  }

  function UnmergedPaths(entries: seq<Entry>): seq<string> {
    if entries == [] then []
    else (if IsUnmerged(entries[0].code) then [entries[0].path] else []) + UnmergedPaths(entries[1..])
  }

  lemma NotCR(s: string)
    requires TrimEnd(s) == s
    ensures StripCR(s) == s
  {
    var b := TrimEndShape(s);
  }

  /** The printed status reads back entry by entry. */
  lemma {:induction false} StatusReadsBack(entries: seq<Entry>)
    requires forall e :: e in entries ==> GitEntry(e)
    ensures PorcelainEntries(Print(entries)) == entries
  {
    if entries != [] {
      var e := entries[0];
      assert e in entries;
      var line := e.code + " " + e.path;
      LinesFirst(line, Print(entries[1..]));
      NotCR(e.path);
      assert StripCR(line) == line by {
        if e.path != "" {
          assert line[|line| - 1] == e.path[|e.path| - 1];
        }
      }
      assert line[..2] == e.code && line[3..] == e.path;
      StatusReadsBack(entries[1..]);
      assert [e] + entries[1..] == entries;
    }
  }

  lemma {:induction false} PathsAt(entries: seq<Entry>)
    ensures |PathsOf(entries)| == |entries|
    ensures forall i :: 0 <= i < |entries| ==> PathsOf(entries)[i] == entries[i].path
  {
    if entries != [] {
      PathsAt(entries[1..]);
    }
  }

  /** The dirty files are the paths of all entries, in git's order. */
  lemma DirtyFilesAreThePaths(entries: seq<Entry>)
    requires forall e :: e in entries ==> GitEntry(e)
    ensures |ParsePorcelainFiles(Print(entries))| == |entries|
    ensures forall i :: 0 <= i < |entries| ==> ParsePorcelainFiles(Print(entries))[i] == entries[i].path
  {
    StatusReadsBack(entries);
    PathsAt(entries);
  }

  lemma {:induction false} UnmergedCodes(entries: seq<Entry>)
    requires forall e :: e in entries ==> GitEntry(e)
    ensures UnmergedOf(entries) == UnmergedPaths(entries)
  {
    if entries != [] {
      assert entries[0] in entries;
      assert "UU"[0] == 'U' && "AU"[1] == 'U' && "UD"[0] == 'U' && "UA"[0] == 'U' && "DU"[1] == 'U';
      UnmergedCodes(entries[1..]);
    }
  }

  /** The conflict list is exactly the unmerged paths, in git's order. */
  lemma ConflictFilesAreUnmergedPaths(entries: seq<Entry>)
    requires forall e :: e in entries ==> GitEntry(e)
    ensures ParseUnmergedFiles(Print(entries)) == UnmergedPaths(entries)
  {
    StatusReadsBack(entries);
    UnmergedCodes(entries);
  }
}
