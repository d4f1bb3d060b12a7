/** The diff pane's document: built from the open files' diffs, and kept across
    refresh passes for as long as nothing has moved. */
module DiffDocument {
  import opened Prelude
  import opened Trimming

  datatype Content = Shown(body: string) | Binary | TooLarge

  datatype FileDiff = FileDiff(path: string, content: Content)

  datatype LineKind = Heading | Added | Removed | Meta | Context | Refusal

  datatype DiffLine = DiffLine(kind: LineKind, text: string)

  /** What one refresh pass reads: the open list and the selected source as the
      tree published them, and what git answers for them. A path in neither map
      is one git no longer reports. */
  datatype Pass = Pass(
    open: seq<string>,
    source: Option<string>,
    fingerprint: Result<string, string>,
    untracked: Result<(), string>,
    diffs: map<string, Content>,
    failing: map<string, string>
  )

  // ---------- the document ----------

  predicate StartsWith(s: string, prefix: string) {
    prefix <= s
  }

  /** `DiffLineKind::of`: file headers before the single characters they start with. */
  function KindOf(line: string): LineKind {
    if StartsWith(line, "+++") || StartsWith(line, "---") || StartsWith(line, "@@")
       || StartsWith(line, "diff --git ")
    then Meta
    else if StartsWith(line, "+") then Added
    else if StartsWith(line, "-") then Removed
    else Context
  }

  function BodyLines(lines: seq<string>): seq<DiffLine> {
    if lines == [] then [] else [DiffLine(KindOf(lines[0]), lines[0])] + BodyLines(lines[1..])
  }

  const BINARY_MESSAGE := "binary file"
  const TOO_LARGE_MESSAGE := "diff too large to display"

  function Section(file: FileDiff): seq<DiffLine> {
    [DiffLine(Heading, file.path)] +
    match file.content
    case Shown(body) => BodyLines(Lines(body))
    case Binary => [DiffLine(Refusal, BINARY_MESSAGE)]
    case TooLarge => [DiffLine(Refusal, TOO_LARGE_MESSAGE)]
  }

  function Sections(files: seq<FileDiff>): seq<DiffLine> {
    if files == [] then [] else Section(files[0]) + Sections(files[1..])
  }

  /** `file_diff`. */
  function DiffOf(p: Pass, path: string): Result<Option<FileDiff>, string> {
    if path in p.failing then Err(p.failing[path])
    else if path in p.diffs then Ok(Some(FileDiff(path, p.diffs[path])))
    else Ok(None)
  }

  /** The open files that have a diff, in the order given; any failure fails all. */
  function FilesOf(p: Pass, open: seq<string>): Result<seq<FileDiff>, string> {
    if open == [] then Ok([])
    else
      match DiffOf(p, open[0])
      case Err(e) => Err(e)
      case Ok(file) =>
        match FilesOf(p, open[1..])
        case Err(e) => Err(e)
        case Ok(rest) => Ok((if file.Some? then [file.value] else []) + rest)
  }

  /** The document of a pass, from scratch. */
  function Document(p: Pass): Result<seq<DiffLine>, string> {
    if p.source.None? && p.untracked.Err? then Err(p.untracked.error)
    else
      match FilesOf(p, p.open)
      case Err(e) => Err(e)
      case Ok(files) => Ok(Sections(files))
  }

  function Prepend(files: seq<FileDiff>, r: Result<seq<FileDiff>, string>): Result<seq<FileDiff>, string> {
    if r.Ok? then Ok(files + r.value) else r
  }

  /** `document_lines`. */
  method DocumentLines(files: seq<FileDiff>) returns (lines: seq<DiffLine>)
    ensures lines == Sections(files)
  {
    lines := [];
    assert files[0..] == files;
    for i := 0 to |files|
      invariant lines + Sections(files[i..]) == Sections(files)
    {
      assert files[i..][0] == files[i] && files[i..][1..] == files[i + 1..];
      var section := Section(files[i]);
      assert lines + (section + Sections(files[i + 1..])) == (lines + section) + Sections(files[i + 1..]);
      lines := lines + section;
    }
    assert files[|files|..] == [];
  }

  /** One turn of the loop over the open paths. */
  lemma NextFile(p: Pass, files: seq<FileDiff>, i: nat)
    requires i < |p.open|
    ensures var file := DiffOf(p, p.open[i]);
            match file
            case Err(e) => FilesOf(p, p.open[i..]) == Err(e)
            case Ok(found) =>
              Prepend(files + (if found.Some? then [found.value] else []), FilesOf(p, p.open[i + 1..]))
              == Prepend(files, FilesOf(p, p.open[i..]))
  {
    var rest := p.open[i..];
    assert rest[0] == p.open[i] && rest[1..] == p.open[i + 1..];
    var file := DiffOf(p, p.open[i]);
    if file.Ok? {
      var next := if file.value.Some? then [file.value.value] else [];
      var later := FilesOf(p, p.open[i + 1..]);
      if later.Ok? {
        assert files + (next + later.value) == (files + next) + later.value;
      }
    }
  }

  /** `build_document`. */
  method BuildDocument(p: Pass) returns (r: Result<seq<DiffLine>, string>)
    requires p.source.None? ==> p.untracked.Ok?
    ensures r == Document(p)
  {
    var files := [];
    assert Prepend(files, FilesOf(p, p.open[0..])) == FilesOf(p, p.open) by {
      assert p.open[0..] == p.open;
      assert FilesOf(p, p.open).Ok? ==> files + FilesOf(p, p.open).value == FilesOf(p, p.open).value;
    }
    for i := 0 to |p.open|
      invariant Prepend(files, FilesOf(p, p.open[i..])) == FilesOf(p, p.open)
    {
      NextFile(p, files, i);
      var file := DiffOf(p, p.open[i]);
      if file.Err? {
        return Err(file.error);
      }
      files := files + (if file.value.Some? then [file.value.value] else []);
    }
    assert p.open[|p.open|..] == [] && files + [] == files;
    var lines := DocumentLines(files);
    return Ok(lines);
  }

  // ---------- the pane's state ----------

  /** `LastSeen`: what the last successful pass saw. */
  datatype LastSeen = LastSeen(open: seq<string>, source: Option<string>, fingerprint: string)

  const NOTHING_SEEN := LastSeen([], None, "")

  datatype View = View(last: LastSeen, lines: seq<DiffLine>, offset: nat, notice: Option<string>)

  const START := View(NOTHING_SEEN, [], 0, None)

  /** Nothing has moved since the last successful pass. */
  predicate Unmoved(last: LastSeen, p: Pass) {
    p.fingerprint.Ok? && last == LastSeen(p.open, p.source, p.fingerprint.value)
  }

  /** What a pass does to the view. */
  function Refreshed(v: View, p: Pass): View {
    if p.open == [] then View(NOTHING_SEEN, [], v.offset, None)
    else if p.fingerprint.Err? then v.(notice := Some(p.fingerprint.error))
    else if Unmoved(v.last, p) then v.(notice := None)
    else
      match Document(p)
      case Err(e) => v.(notice := Some(e))
      case Ok(lines) =>
        var offset := if p.open != v.last.open then 0 else v.offset;
        View(LastSeen(p.open, p.source, p.fingerprint.value), lines, offset, None)
  }

  class DiffPane {
    var last: LastSeen
    var lines: seq<DiffLine>
    var offset: nat
    var notice: Option<string>

    function Shows(): View
      reads this
    {
      View(last, lines, offset, notice)
    }

    constructor ()
      ensures Shows() == START
    {
      last, lines, offset, notice := NOTHING_SEEN, [], 0, None;
    }

    /** `rebuild`: fresh lines, or `None` when nothing has moved. */
    method Rebuild(p: Pass) returns (r: Result<Option<seq<DiffLine>>, string>)
      modifies this`last
      ensures p.fingerprint.Err? ==> r == Err(p.fingerprint.error) && last == old(last)
      ensures p.fingerprint.Ok? && Unmoved(old(last), p) ==> r == Ok(None) && last == old(last)
      ensures p.fingerprint.Ok? && !Unmoved(old(last), p) ==>
                match Document(p)
                case Err(e) => r == Err(e) && last == old(last)
                case Ok(document) => r == Ok(Some(document)) && last == LastSeen(p.open, p.source, p.fingerprint.value)
    {
      if p.fingerprint.Err? {
        return Err(p.fingerprint.error);
      }
      if p.open == last.open && p.source == last.source && p.fingerprint.value == last.fingerprint {
        return Ok(None);
      }
      if p.source.None? && p.untracked.Err? {
        return Err(p.untracked.error);
      }
      var built := BuildDocument(p);
      if built.Err? {
        return Err(built.error);
      }
      last := LastSeen(p.open, p.source, p.fingerprint.value);
      return Ok(Some(built.value));
    }

    /** `refresh`. */
    method Refresh(p: Pass)
      modifies this
      ensures Shows() == Refreshed(old(Shows()), p)
    {
      if p.open == [] {
        notice, last, lines := None, NOTHING_SEEN, [];
        return;
      }
      var switched := p.open != last.open;
      var r := Rebuild(p);
      match r {
        case Ok(rebuilt) =>
          notice := None;
          if rebuilt.Some? {
            lines := rebuilt.value;
            if switched {
              offset := 0;
            }
          }
        case Err(e) =>
          notice := Some(e);
      }
    }
  }

  // ---------- whole runs ----------

  /** A pass of the timer, or a key that moves the offset. */
  datatype Event = Passed(p: Pass) | Scrolled(to: nat)

  function After(v: View, e: Event): View {
    match e
    case Passed(p) => Refreshed(v, p)
    case Scrolled(to) => v.(offset := to)
  }

  function Run(events: seq<Event>): View {
    if events == [] then START else After(Run(events[..|events| - 1]), events[|events| - 1])
  }

  predicate SameFiles(p: Pass, q: Pass) {
    p.open == q.open && p.source == q.source && p.fingerprint == q.fingerprint
  }

  /** Equal fingerprints of the same open list and source mean equal documents. */
  ghost predicate FingerprintsTell(events: seq<Event>) {
    forall i, j :: 0 <= i < |events| && 0 <= j < |events| && events[i].Passed? && events[j].Passed?
                   && SameFiles(events[i].p, events[j].p) && Document(events[i].p).Ok? && Document(events[j].p).Ok?
                   ==> Document(events[i].p) == Document(events[j].p)
  }

  /** The lines on show are the document of event `i`, which is what was last seen. */
  ghost predicate ShowsPass(v: View, e: Event) {
    && e.Passed? && e.p.open != [] && Unmoved(v.last, e.p) && Document(e.p) == Ok(v.lines)
  }

  /** What is on show is always some earlier pass's whole document, the one the
      record of what was last seen names, or nothing. */
  lemma {:induction false} LinesAreAPassesDocument(events: seq<Event>)
    ensures var v := Run(events);
            || (v.last == NOTHING_SEEN && v.lines == [])
            || exists i :: 0 <= i < |events| && ShowsPass(v, events[i])
  {
    if events != [] {
      var n := |events| - 1;
      var before, v := Run(events[..n]), Run(events);
      LinesAreAPassesDocument(events[..n]);
      if v.last == before.last && v.lines == before.lines {
        if i :| 0 <= i < n && ShowsPass(before, events[..n][i]) {
          assert ShowsPass(v, events[i]);
        }
      } else if v.last != NOTHING_SEEN {
        assert ShowsPass(v, events[n]);
      }
    }
  }

  ghost predicate Succeeds(v: View, p: Pass) {
    Refreshed(v, p).notice == None
  }

  /** After a pass that succeeds, the lines are what building the document from
      scratch gives, whatever failed, emptied or changed before. */
  lemma ShownIsFresh(events: seq<Event>)
    requires events != [] && events[|events| - 1].Passed? && FingerprintsTell(events)
    requires Succeeds(Run(events[..|events| - 1]), events[|events| - 1].p)
    requires Document(events[|events| - 1].p).Ok?
    ensures Run(events).lines == Document(events[|events| - 1].p).value
  {
    var n := |events| - 1;
    var p, v := events[n].p, Run(events[..n]);
    if p.open != [] && p.fingerprint.Ok? && Unmoved(v.last, p) {
      LinesAreAPassesDocument(events[..n]);
      var i :| 0 <= i < n && ShowsPass(v, events[..n][i]);
      assert SameFiles(events[i].p, p);
    }
  }

  /** Git does not answer for a non-empty list that moved or cannot be told to have
      stayed. */
  predicate Fails(last: LastSeen, p: Pass) {
    p.open != [] && (p.fingerprint.Err? || (!Unmoved(last, p) && Document(p).Err?))
  }

  /** A pass that fails keeps the lines, the offset and the record, and says why. */
  lemma FailureKeepsTheView(v: View, p: Pass)
    ensures Succeeds(v, p) <==> !Fails(v.last, p)
    ensures !Succeeds(v, p) ==> Refreshed(v, p) == v.(notice := Refreshed(v, p).notice)
  {
  }

  /** No pass of `later` succeeds. */
  ghost predicate NoneSucceeds(events: seq<Event>, later: seq<Event>) {
    forall k :: 0 <= k < |later| && later[k].Passed? ==> !Succeeds(Run(events + later[..k]), later[k].p)
  }

  ghost predicate AllFail(last: LastSeen, later: seq<Event>) {
    forall e :: e in later && e.Passed? ==> Fails(last, e.p)
  }

  lemma NoneSucceedsStep(events: seq<Event>, later: seq<Event>, e: Event)
    ensures NoneSucceeds(events, later + [e]) <==>
            NoneSucceeds(events, later) && (e.Passed? ==> !Succeeds(Run(events + later), e.p))
  {
    var longer := later + [e];
    assert forall k :: 0 <= k < |later| ==> longer[k] == later[k] && longer[..k] == later[..k];
    assert longer[|later|] == e && longer[..|later|] == later;
  }

  lemma RunThen(events: seq<Event>, e: Event)
    ensures Run(events + [e]) == After(Run(events), e)
  {
    assert (events + [e])[..|events|] == events;
  }

  /** However long git fails for, and whatever is scrolled meanwhile, the document
      stays as it was and the notice says so. No pass succeeds exactly when each fails
      against the record the last successful one left. */
  lemma {:induction false} FailuresKeepTheDocument(events: seq<Event>, later: seq<Event>)
    ensures NoneSucceeds(events, later) <==> AllFail(Run(events).last, later)
    ensures NoneSucceeds(events, later) ==>
              var v := Run(events + later);
              && v.lines == Run(events).lines && v.last == Run(events).last
              && ((exists e :: e in later && e.Passed?) ==> v.notice.Some?)
  {
    if later == [] {
      assert events + later == events;
    } else {
      var n := |later| - 1;
      var init, e := later[..n], later[n];
      assert later == init + [e] && events + later == (events + init) + [e];
      FailuresKeepTheDocument(events, init);
      NoneSucceedsStep(events, init, e);
      RunThen(events + init, e);
      if e.Passed? {
        FailureKeepsTheView(Run(events + init), e.p);
      }
    }
  }

  // ---------- the scroll ----------

  /** The open list of the last pass that succeeded, the empty one counted too. */
  ghost function LastList(events: seq<Event>): seq<string> {
    if events == [] then []
    else
      var n := |events| - 1;
      var e := events[n];
      if e.Passed? && Succeeds(Run(events[..n]), e.p) then e.p.open else LastList(events[..n])
  }

  lemma {:induction false} LastListIsRecorded(events: seq<Event>)
    ensures Run(events).last.open == LastList(events)
  {
    if events != [] {
      LastListIsRecorded(events[..|events| - 1]);
    }
  }

  /** A pass moves the offset to the top exactly when it succeeds with a non-empty
      list other than the one the last successful pass had; any other pass leaves it. */
  lemma OffsetResetsOnAnotherFile(events: seq<Event>, p: Pass)
    ensures var v := Run(events);
            Run(events + [Passed(p)]).offset ==
            if p.open != [] && Succeeds(v, p) && p.open != LastList(events) then 0 else v.offset
  {
    assert (events + [Passed(p)])[..|events|] == events;
    LastListIsRecorded(events);
  }

  // ---------- what the document shows ----------

  function Headings(lines: seq<DiffLine>): seq<string> {
    if lines == [] then []
    else (if lines[0].kind == Heading then [lines[0].text] else []) + Headings(lines[1..])
  }

  function PathsOf(files: seq<FileDiff>): seq<string> {
    if files == [] then [] else [files[0].path] + PathsOf(files[1..])
  }

  lemma {:induction false} HeadingsAppend(a: seq<DiffLine>, b: seq<DiffLine>)
    ensures Headings(a + b) == Headings(a) + Headings(b)
  {
    if a == [] {
      assert a + b == b;
    } else {
      HeadingsAppend(a[1..], b);
      assert (a + b)[1..] == a[1..] + b;
      var head := if a[0].kind == Heading then [a[0].text] else [];
      assert head + (Headings(a[1..]) + Headings(b)) == (head + Headings(a[1..])) + Headings(b);
    }
  }

  lemma {:induction false} BodyHasNoHeading(lines: seq<string>)
    ensures Headings(BodyLines(lines)) == []
  {
    if lines != [] {
      BodyHasNoHeading(lines[1..]);
    }
  }

  lemma SectionHasOneHeading(file: FileDiff)
    ensures Headings(Section(file)) == [file.path]
  {
    var head := [DiffLine(Heading, file.path)];
    var body := Section(file)[1..];
    assert Section(file) == head + body;
    if file.content.Shown? {
      BodyHasNoHeading(Lines(file.content.body));
    }
    HeadingsAppend(head, body);
  }

  /** Whatever a file holds, the headings are the files' paths and nothing else. */
  lemma {:induction false} HeadingsAreThePaths(files: seq<FileDiff>)
    ensures Headings(Sections(files)) == PathsOf(files)
  {
    if files != [] {
      SectionHasOneHeading(files[0]);
      HeadingsAppend(Section(files[0]), Sections(files[1..]));
      HeadingsAreThePaths(files[1..]);
    }
  }

  function Reported(p: Pass, open: seq<string>): seq<string> {
    if open == [] then [] else (if open[0] in p.diffs then [open[0]] else []) + Reported(p, open[1..])
  }

  lemma {:induction false} FilesAreTheReported(p: Pass, open: seq<string>)
    requires FilesOf(p, open).Ok?
    ensures PathsOf(FilesOf(p, open).value) == Reported(p, open)
  {
    if open != [] {
      FilesAreTheReported(p, open[1..]);
      var rest := FilesOf(p, open[1..]).value;
      if open[0] in p.diffs {
        assert FilesOf(p, open).value[1..] == rest;
      } else {
        assert FilesOf(p, open).value == rest;
      }
    }
  }

  /** The document has one heading per open file git reports, in the tree's order. */
  lemma DocumentHeadings(p: Pass)
    requires Document(p).Ok?
    ensures Headings(Document(p).value) == Reported(p, p.open)
  {
    FilesAreTheReported(p, p.open);
    HeadingsAreThePaths(FilesOf(p, p.open).value);
  }

  // ---------- what stands below a heading ----------

  /** A line of a diff by its first characters: file headers and hunks before the
      additions and removals they look like. */
  lemma KindMeaning(line: string)
    ensures KindOf(line) == Meta <==>
            "+++" <= line || "---" <= line || "@@" <= line || "diff --git " <= line
    ensures KindOf(line) == Added <==> line != "" && line[0] == '+' && !("+++" <= line)
    ensures KindOf(line) == Removed <==> line != "" && line[0] == '-' && !("---" <= line)
    ensures KindOf(line) != Heading && KindOf(line) != Refusal
  {
    assert "diff --git "[0] == 'd';
  }

  lemma {:induction false} BodyLinesAt(lines: seq<string>)
    ensures |BodyLines(lines)| == |lines|
    ensures forall i :: 0 <= i < |lines| ==> BodyLines(lines)[i] == DiffLine(KindOf(lines[i]), lines[i])
  {
    if lines != [] {
      BodyLinesAt(lines[1..]);
    }
  }

  /** A file's stretch of the document: its path, then every line of its diff in order,
      each as it stands, or one line that says why the diff is not shown. */
  ghost predicate Shows(lines: seq<DiffLine>, file: FileDiff) {
    && lines != [] && lines[0] == DiffLine(Heading, file.path)
    && match file.content
       case Shown(body) =>
         && |lines| == 1 + |Lines(body)|
         && forall i :: 0 <= i < |Lines(body)| ==>
              lines[i + 1] == DiffLine(KindOf(Lines(body)[i]), Lines(body)[i])
       case Binary => lines[1..] == [DiffLine(Refusal, "binary file")]
       case TooLarge => lines[1..] == [DiffLine(Refusal, "diff too large to display")]
  }

  lemma SectionShows(file: FileDiff)
    ensures Shows(Section(file), file)
  {
    if file.content.Shown? {
      BodyLinesAt(Lines(file.content.body));
    }
  }

  /** The document is cut into one stretch per file, in order. */
  ghost predicate Stretches(document: seq<DiffLine>, files: seq<FileDiff>, cuts: seq<nat>) {
    && |cuts| == |files| + 1 && cuts[0] == 0 && cuts[|files|] == |document|
    && forall i, j :: 0 <= i && j == i + 1 < |cuts| ==>
         cuts[i] <= cuts[j] <= |document| && Shows(document[cuts[i]..cuts[j]], files[i])
  }

  lemma {:induction false} SectionsStretch(files: seq<FileDiff>) returns (cuts: seq<nat>)
    ensures Stretches(Sections(files), files, cuts)
  {
    if files == [] {
      cuts := [0];
    } else {
      var n := |files| - 1;
      var init, last := files[..n], files[n];
      cuts := SectionsStretch(init);
      SectionsSnoc(init, last);
      SectionShows(last);
      assert files == init + [last];
      StretchMore(Sections(init), init, cuts, Section(last), last);
      cuts := cuts + [|Sections(files)|];
    }
  }

  lemma StretchMore(document: seq<DiffLine>, files: seq<FileDiff>, cuts: seq<nat>, more: seq<DiffLine>, last: FileDiff)
    requires Stretches(document, files, cuts) && Shows(more, last)
    ensures Stretches(document + more, files + [last], cuts + [|document + more|])
  {
    var longer := cuts + [|document + more|];
    forall i, j | 0 <= i && j == i + 1 < |longer|
      ensures longer[i] <= longer[j] <= |document + more|
      ensures Shows((document + more)[longer[i]..longer[j]], (files + [last])[i])
    {
      assert longer[i] == cuts[i];
      if j < |cuts| {
        assert longer[j] == cuts[j];
        assert (document + more)[cuts[i]..cuts[j]] == document[cuts[i]..cuts[j]];
      } else {
        assert (document + more)[cuts[i]..longer[j]] == more;
      }
    }
  }

  lemma {:induction false} SectionsSnoc(files: seq<FileDiff>, last: FileDiff)
    ensures Sections(files + [last]) == Sections(files) + Section(last)
  {
    if files != [] {
      SectionsSnoc(files[1..], last);
      assert (files + [last])[1..] == files[1..] + [last];
    }
  }

  /** The files of the open list that git reports, in order, each with its diff. */
  ghost predicate ReportedFiles(p: Pass, files: seq<FileDiff>) {
    && PathsOf(files) == Reported(p, p.open)
    && forall f :: f in files ==> f.path in p.diffs && f.content == p.diffs[f.path]
  }

  lemma {:induction false} FilesHoldTheirDiffs(p: Pass, open: seq<string>)
    requires FilesOf(p, open).Ok?
    ensures forall f :: f in FilesOf(p, open).value ==> f.path in p.diffs && f.content == p.diffs[f.path]
  {
    if open != [] {
      FilesHoldTheirDiffs(p, open[1..]);
    }
  }

  /** The whole document: for each open file git reports, in the tree's order, its
      heading and every line of its diff. */
  lemma DocumentShowsTheDiffs(p: Pass)
    requires Document(p).Ok?
    ensures exists files, cuts :: ReportedFiles(p, files) && Stretches(Document(p).value, files, cuts)
  {
    var files := FilesOf(p, p.open).value;
    FilesAreTheReported(p, p.open);
    FilesHoldTheirDiffs(p, p.open);
    var cuts := SectionsStretch(files);
    assert ReportedFiles(p, files);
  }

  /** There is a document exactly when git answers for every open file and, for unstaged
      work, for the untracked ones. */
  lemma {:induction false} FilesFailIff(p: Pass, open: seq<string>)
    ensures FilesOf(p, open).Err? <==> exists path :: path in open && path in p.failing
  {
    if open != [] {
      FilesFailIff(p, open[1..]);
      assert forall path :: path in open <==> path == open[0] || path in open[1..];
    }
  }

  lemma DocumentFailsIff(p: Pass)
    ensures Document(p).Err? <==>
            (p.source == None && p.untracked.Err?) || exists path :: path in p.open && path in p.failing
  {
    FilesFailIff(p, p.open);
  }
}
