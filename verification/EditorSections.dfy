/** The `--- NAME ---` file the pop-out editors write and read back: the escape
    rule for header-looking lines, the parser, and the round trip of any list of
    sections. */
module EditorSections {
  import opened Prelude
  import opened Text
  import opened Trimming

  // ---------- headers and the escape rule ----------

  function Header(name: string): string {
    "--- " + name + " ---"
  }

  /** The known section a line opens, if it does. */
  function SectionName(line: string, known: seq<string>): Option<string> {
    var t := Trim(line);
    if !("--- " <= t) then None
    else
      var rest := t[4..];
      if |rest| < 4 || rest[|rest| - 4..] != " ---" then None
      else if rest[..|rest| - 4] in known then Some(rest[..|rest| - 4])
      else None
  }

  predicate IsKnownHeader(line: string, known: seq<string>) {
    SectionName(line, known).Some?
  }

  /** `trim_start_matches('\\')`. */
  function DropBackslashes(line: string): string {
    if line != "" && line[0] == '\\' then DropBackslashes(line[1..]) else line
  }

  predicate IsEscapable(line: string, known: seq<string>) {
    IsKnownHeader(DropBackslashes(line), known)
  }

  function EscapeLine(line: string, known: seq<string>): string {
    if IsEscapable(line, known) then "\\" + line else line
  }

  function EscapeLines(lines: seq<string>, known: seq<string>): (r: seq<string>)
    ensures |r| == |lines|
  {
    if lines == [] then [] else [EscapeLine(lines[0], known)] + EscapeLines(lines[1..], known)
  }

  /** `escape_headers`. */
  function EscapeHeaders(value: string, known: seq<string>): string {
    Join(EscapeLines(Split(value, '\n'), known), '\n')
  }

  /** `unescape_headers`, one line at a time. */
  function UnescapeLine(line: string, known: seq<string>): string {
    if line != "" && line[0] == '\\' && IsEscapable(line[1..], known) then line[1..] else line
  }

  lemma BackslashIsNoHeader(line: string, known: seq<string>)
    requires line != "" && line[0] == '\\'
    ensures !IsKnownHeader(line, known)
  {
    var b := TrimEndShape(line);
    assert TrimEnd(line) == "" ==> line == b;
    assert line[0] in line;
  }

  /** An escaped line never opens a section, and reads back as it was. */
  lemma EscapedLineReadsBack(line: string, known: seq<string>)
    ensures !IsKnownHeader(EscapeLine(line, known), known)
    ensures UnescapeLine(EscapeLine(line, known), known) == line
  {
    var e := EscapeLine(line, known);
    if IsEscapable(line, known) {
      BackslashIsNoHeader(e, known);
      assert e[1..] == line;
    } else if line != "" && line[0] == '\\' {
      BackslashIsNoHeader(line, known);
    }
  }

  lemma {:induction false} DropBackslashesStripCR(line: string)
    ensures DropBackslashes(StripCR(line)) == StripCR(DropBackslashes(line))
  {
    if |line| >= 2 && line[0] == '\\' {
      DropBackslashesStripCR(line[1..]);
      assert StripCR(line)[1..] == StripCR(line[1..]);
    }
  }

  /** The same through the carriage return a reader drops. */
  lemma EscapedLineReadsBackStripped(line: string, known: seq<string>)
    ensures SectionName(StripCR(EscapeLine(line, known)), known) == None
    ensures UnescapeLine(StripCR(EscapeLine(line, known)), known) == StripCR(line)
  {
    var e := EscapeLine(line, known);
    EscapedLineReadsBack(line, known);
    StripCRTrims(e);
    DropBackslashesStripCR(line);
    StripCRTrims(DropBackslashes(line));
    EscapedLineReadsBack(StripCR(line), known);
    assert IsEscapable(StripCR(line), known) == IsEscapable(line, known);
    if IsEscapable(line, known) {
      EscapableNonEmpty(line, known);
      assert StripCR(e) == "\\" + StripCR(line);
    }
  }

  lemma EscapableNonEmpty(line: string, known: seq<string>)
    requires IsEscapable(line, known)
    ensures line != ""
  {
  }

  // ---------- the parser ----------

  datatype Parse = Parse(sections: map<string, string>, current: Option<string>, buffer: string)

  function AppendLine(buffer: string, line: string): string {
    if buffer == "" then line else buffer + ['\n'] + line
  }

  /** Leading blank lines of a section's text. */
  function DropBlank(lines: seq<string>): seq<string> {
    if lines != [] && Trim(lines[0]) == "" then DropBlank(lines[1..]) else lines
  }

  /** `section_value`. */
  function SectionValue(raw: string): string {
    TrimEnd(Join(DropBlank(Lines(raw)), '\n'))
  }

  function CloseSection(st: Parse): map<string, string> {
    match st.current
    case None => st.sections
    case Some(name) => st.sections[name := SectionValue(st.buffer)]
  }

  function ReadLine(st: Parse, line: string, known: seq<string>): Parse {
    match SectionName(line, known)
    case Some(name) => Parse(CloseSection(st), Some(name), "")
    case None =>
      if st.current.Some? then st.(buffer := AppendLine(st.buffer, UnescapeLine(line, known))) else st
  }

  function ReadLines(st: Parse, lines: seq<string>, known: seq<string>): Parse
    decreases lines
  {
    if lines == [] then st else ReadLines(ReadLine(st, lines[0], known), lines[1..], known)
  }

  const Unread: Parse := Parse(map[], None, "")

  /** `parse_sections_in`. */
  function ParseSections(input: string, known: seq<string>): map<string, string> {
    CloseSection(ReadLines(Unread, Lines(input), known))
  }

  lemma ReadLinesFrom(st: Parse, lines: seq<string>, i: nat, known: seq<string>)
    requires i < |lines|
    ensures ReadLines(st, lines[i..], known) == ReadLines(ReadLine(st, lines[i], known), lines[i + 1..], known)
  {
    assert lines[i..][0] == lines[i] && lines[i..][1..] == lines[i + 1..];
  }

  /** The parser's loop. */
  method ParseSectionsIn(input: string, known: seq<string>) returns (sections: map<string, string>)
    ensures sections == ParseSections(input, known)
  {
    sections := map[];
    var current: Option<string> := None;
    var buffer := "";
    var lines := Lines(input);
    for i := 0 to |lines|
      invariant ReadLines(Parse(sections, current, buffer), lines[i..], known) == ReadLines(Unread, lines, known)
    {
      ghost var before := Parse(sections, current, buffer);
      ReadLinesFrom(before, lines, i, known);
      var section := SectionName(lines[i], known);
      if section.Some? {
        if current.Some? {
          var value := ReadSectionValue(buffer);
          sections := sections[current.value := value];
        }
        current := section;
        buffer := "";
      } else if current.Some? {
        if buffer != "" {
          buffer := buffer + ['\n'];
        }
        buffer := buffer + UnescapeLine(lines[i], known);
      }
      assert Parse(sections, current, buffer) == ReadLine(before, lines[i], known);
    }
    if current.Some? {
      var value := ReadSectionValue(buffer);
      sections := sections[current.value := value];
    }
  }

  /** The loop of `section_value`. */
  method ReadSectionValue(raw: string) returns (value: string)
    ensures value == SectionValue(raw)
  {
    var lines := Lines(raw);
    while lines != [] && Trim(lines[0]) == ""
      invariant DropBlank(lines) == DropBlank(Lines(raw))
      decreases |lines|
    {
      lines := lines[1..];
    }
    value := TrimEnd(Join(lines, '\n'));
  }

  // ---------- writing sections ----------

  /** A section's name and value. */
  datatype Section = Section(name: string, value: string)

  function FormatSections(sections: seq<Section>, known: seq<string>): string {
    if sections == [] then ""
    else
      Header(sections[0].name) + ['\n'] + EscapeHeaders(sections[0].value, known) + ['\n']
      + FormatSections(sections[1..], known)
  }

  // ---------- the round trip ----------

  function StripLines(lines: seq<string>): (r: seq<string>)
    ensures |r| == |lines|
  {
    if lines == [] then [] else [StripCR(lines[0])] + StripLines(lines[1..])
  }

  function Gather(buffer: string, lines: seq<string>): string
    decreases lines
  {
    if lines == [] then buffer else Gather(AppendLine(buffer, lines[0]), lines[1..])
  }

  /** What a value becomes once written and read: a function of the value alone. */
  function ReadBack(value: string): string {
    SectionValue(Gather("", StripLines(Split(value, '\n'))))
  }

  function Terminate(lines: seq<string>): string {
    if lines == [] then "" else lines[0] + ['\n'] + Terminate(lines[1..])
  }

  lemma {:induction false} JoinTerminates(lines: seq<string>)
    requires lines != []
    ensures Join(lines, '\n') + ['\n'] == Terminate(lines)
  {
    if |lines| > 1 {
      JoinTerminates(lines[1..]);
      assert lines[0] + ['\n'] + Join(lines[1..], '\n') + ['\n'] ==
             lines[0] + ['\n'] + (Join(lines[1..], '\n') + ['\n']);
    } else {
      assert Terminate(lines[1..]) == "";
    }
  }

  lemma EscapeLineLacksNewline(line: string, known: seq<string>)
    requires Lacks(line, '\n')
    ensures Lacks(EscapeLine(line, known), '\n')
  {
  }

  /** A value's lines reach the buffer as they were, whatever they look like. */
  lemma {:induction false} BodyReadsBack(st: Parse, lines: seq<string>, rest: string, known: seq<string>)
    requires st.current.Some?
    requires forall l :: l in lines ==> Lacks(l, '\n')
    ensures ReadLines(st, Lines(Terminate(EscapeLines(lines, known)) + rest), known)
         == ReadLines(st.(buffer := Gather(st.buffer, StripLines(lines))), Lines(rest), known)
    decreases lines
  {
    if lines == [] {
      assert Terminate(EscapeLines(lines, known)) + rest == rest;
    } else {
      assert lines[0] in lines;
      var next := st.(buffer := AppendLine(st.buffer, StripCR(lines[0])));
      LineReadsBack(st, lines[0], Terminate(EscapeLines(lines[1..], known)) + rest, known);
      Reassociate(EscapeLine(lines[0], known) + ['\n'], Terminate(EscapeLines(lines[1..], known)), rest);
      BodyReadsBack(next, lines[1..], rest, known);
    }
  }

  lemma Reassociate(a: string, b: string, c: string)
    ensures a + b + c == a + (b + c)
  {
  }

  /** One written line reaches the buffer as it was. */
  lemma LineReadsBack(st: Parse, line: string, more: string, known: seq<string>)
    requires st.current.Some? && Lacks(line, '\n')
    ensures ReadLines(st, Lines(EscapeLine(line, known) + ['\n'] + more), known)
         == ReadLines(st.(buffer := AppendLine(st.buffer, StripCR(line))), Lines(more), known)
  {
    var e := EscapeLine(line, known);
    EscapeLineLacksNewline(line, known);
    LinesFirst(e, more);
    EscapedLineReadsBackStripped(line, known);
    assert ([StripCR(e)] + Lines(more))[1..] == Lines(more);
  }

  lemma HeaderOpens(name: string, known: seq<string>)
    requires name in known
    ensures SectionName(Header(name), known) == Some(name)
    ensures StripCR(Header(name)) == Header(name)
  {
    var h := Header(name);
    TrimOfTrimmed(h);
    assert h[4..] == name + " ---";
    assert h[4..][|name|..] == " ---" && h[4..][..|name|] == name;
  }

  /** What the parser knows after the sections, added one by one to `m`. */
  function AddAll(m: map<string, string>, sections: seq<Section>): map<string, string>
    decreases sections
  {
    if sections == [] then m
    else AddAll(m[sections[0].name := ReadBack(sections[0].value)], sections[1..])
  }

  lemma {:induction false} SectionsReadBack(st: Parse, sections: seq<Section>, known: seq<string>)
    requires forall s :: s in sections ==> s.name in known && Lacks(s.name, '\n')
    ensures CloseSection(ReadLines(st, Lines(FormatSections(sections, known)), known)) ==
            AddAll(CloseSection(st), sections)
    decreases sections
  {
    if sections != [] {
      var s := sections[0];
      assert s in sections;
      var rest := FormatSections(sections[1..], known);
      var lines := Split(s.value, '\n');
      var body := Terminate(EscapeLines(lines, known));
      JoinTerminates(EscapeLines(lines, known));
      assert FormatSections(sections, known) == Header(s.name) + ['\n'] + (body + rest) by {
        assert Header(s.name) + ['\n'] + EscapeHeaders(s.value, known) + ['\n'] + rest
            == Header(s.name) + ['\n'] + ((EscapeHeaders(s.value, known) + ['\n']) + rest);
      }
      HeaderOpens(s.name, known);
      LinesFirst(Header(s.name), body + rest);
      var next := Parse(CloseSection(st), Some(s.name), "");
      forall l | l in lines
        ensures Lacks(l, '\n')
      {
        var i :| 0 <= i < |lines| && lines[i] == l;
        SplitPiecesLack(s.value, '\n', i);
      }
      BodyReadsBack(next, lines, rest, known);
      SectionsReadBack(next.(buffer := Gather("", StripLines(lines))), sections[1..], known);
    }
  }

  lemma {:induction false} AddAllLooksUp(m: map<string, string>, sections: seq<Section>, i: nat)
    requires i < |sections|
    requires forall j :: i < j < |sections| ==> sections[j].name != sections[i].name
    ensures sections[i].name in AddAll(m, sections)
    ensures AddAll(m, sections)[sections[i].name] == ReadBack(sections[i].value)
    decreases sections
  {
    var next := m[sections[0].name := ReadBack(sections[0].value)];
    if i > 0 {
      AddAllLooksUp(next, sections[1..], i - 1);
    } else {
      AddAllKeeps(next, sections[1..], sections[0].name);
    }
  }

  lemma {:induction false} AddAllKeeps(m: map<string, string>, sections: seq<Section>, name: string)
    requires forall j :: 0 <= j < |sections| ==> sections[j].name != name
    requires name in m
    ensures name in AddAll(m, sections) && AddAll(m, sections)[name] == m[name]
    decreases sections
  {
    if sections != [] {
      AddAllKeeps(m[sections[0].name := ReadBack(sections[0].value)], sections[1..], name);
    }
  }

  /** Whatever is written into a file of distinct known sections, each value reads
      back on its own: no header-looking or backslashed line in one section can
      open, end or change another. */
  lemma WrittenSectionsReadBack(sections: seq<Section>, known: seq<string>, i: nat)
    requires forall s :: s in sections ==> s.name in known && Lacks(s.name, '\n')
    requires forall j, k :: 0 <= j < k < |sections| ==> sections[j].name != sections[k].name
    requires i < |sections|
    ensures var parsed := ParseSections(FormatSections(sections, known), known);
            sections[i].name in parsed && parsed[sections[i].name] == ReadBack(sections[i].value)
  {
    SectionsReadBack(Unread, sections, known);
    AddAllLooksUp(map[], sections, i);
  }
}
