/** What one value loses on its way through the editor file: exactly the blank
    lines before it and the white space after it, unless a line inside it ends in
    a carriage return. */
module EditorValues {
  import opened Text
  import opened Trimming
  import opened EditorSections

  /** The value without its leading blank lines and trailing white space. */
  function Canonical(value: string): string {
    Frame(Split(value, '\n'))
  }

  function Frame(lines: seq<string>): string {
    TrimEnd(Join(DropBlank(lines), '\n'))
  }

  // ---------- lists of lines ----------

  lemma {:induction false} JoinAppend(lines: seq<string>, last: string)
    requires lines != []
    ensures Join(lines + [last], '\n') == Join(lines, '\n') + ['\n'] + last
  {
    if |lines| == 1 {
      assert (lines + [last])[1..] == [last];
    } else {
      JoinAppend(lines[1..], last);
      assert (lines + [last])[1..] == lines[1..] + [last];
      assert lines[0] + ['\n'] + (Join(lines[1..], '\n') + ['\n'] + last)
          == (lines[0] + ['\n'] + Join(lines[1..], '\n')) + ['\n'] + last;
    }
  }

  lemma {:induction false} DropBlankAppend(lines: seq<string>, last: string)
    ensures DropBlank(lines + [last]) ==
            if DropBlank(lines) == [] then (if Trim(last) == "" then [] else [last]) else DropBlank(lines) + [last]
  {
    if lines == [] {
      assert [] + [last] == [last];
      assert [last][1..] == [];
    } else {
      assert (lines + [last])[1..] == lines[1..] + [last];
      if Trim(lines[0]) == "" {
        DropBlankAppend(lines[1..], last);
      }
    }
  }

  lemma TrimEndOfTail(s: string, a: string)
    ensures TrimEnd(s + a) == TrimEnd(s + TrimEnd(a))
  {
    var x := TrimEndShape(a);
    TrimEndSkips(s + TrimEnd(a), x);
    assert s + (TrimEnd(a) + x) == s + TrimEnd(a) + x;
  }

  lemma TrimEndTail(s: string, a: string, b: string)
    requires TrimEnd(a) == TrimEnd(b)
    ensures TrimEnd(s + a) == TrimEnd(s + b)
  {
    TrimEndOfTail(s, a);
    TrimEndOfTail(s, b);
  }

  lemma BlankEnds(a: string)
    ensures Trim(a) == "" <==> TrimEnd(a) == ""
  {
    TrimOfTrimEnd(a);
    var b := TrimEndShape(a);
    if TrimEnd(a) != "" {
      var lead := TrimStartShape(a);
      var t := TrimStart(a);
      var u := TrimEndShape(t);
      if Trim(a) == "" {
        assert a == lead + u;
        AllWhiteTrims(a);
      }
    }
  }

  /** Only the part of the last line before its trailing white space counts. */
  lemma FrameLast(lines: seq<string>, a: string, b: string)
    requires TrimEnd(a) == TrimEnd(b)
    ensures Frame(lines + [a]) == Frame(lines + [b])
  {
    DropBlankAppend(lines, a);
    DropBlankAppend(lines, b);
    BlankEnds(a);
    BlankEnds(b);
    if DropBlank(lines) != [] {
      JoinAppend(DropBlank(lines), a);
      JoinAppend(DropBlank(lines), b);
      TrimEndTail(Join(DropBlank(lines), '\n') + ['\n'], a, b);
    }
  }

  lemma FrameEmptyLast(lines: seq<string>)
    ensures Frame(lines + [""]) == Frame(lines)
  {
    DropBlankAppend(lines, "");
    if DropBlank(lines) != [] {
      JoinAppend(DropBlank(lines), "");
      TrimEndSkips(Join(DropBlank(lines), '\n'), "\n");
      assert Join(DropBlank(lines), '\n') + ['\n'] + "" == Join(DropBlank(lines), '\n') + "\n";
    }
  }

  // ---------- the buffer, and reading it line by line ----------

  function DropEmpty(lines: seq<string>): seq<string> {
    if lines != [] && lines[0] == "" then DropEmpty(lines[1..]) else lines
  }

  lemma {:induction false} GatherJoins(buffer: string, lines: seq<string>)
    requires buffer != ""
    ensures Gather(buffer, lines) == Join([buffer] + lines, '\n')
    decreases lines
  {
    if lines == [] {
      assert [buffer] + lines == [buffer];
    } else {
      var next := AppendLine(buffer, lines[0]);
      GatherJoins(next, lines[1..]);
      assert ([buffer] + lines)[1..] == lines;
      assert ([next] + lines[1..])[1..] == lines[1..];
      if |lines| > 1 {
        assert buffer + ['\n'] + (lines[0] + ['\n'] + Join(lines[1..], '\n')) == next + ['\n'] + Join(lines[1..], '\n');
      }
    }
  }

  lemma {:induction false} GatherFromEmpty(lines: seq<string>)
    ensures Gather("", lines) == Join(DropEmpty(lines), '\n')
    decreases lines
  {
    if lines != [] {
      if lines[0] == "" {
        GatherFromEmpty(lines[1..]);
      } else {
        GatherJoins(lines[0], lines[1..]);
        assert [lines[0]] + lines[1..] == lines;
      }
    }
  }

  lemma {:induction false} DropBlankDropEmpty(lines: seq<string>)
    ensures DropBlank(StripLines(DropEmpty(lines))) == DropBlank(StripLines(lines))
  {
    if lines != [] && lines[0] == "" {
      DropBlankDropEmpty(lines[1..]);
    }
  }

  lemma {:induction false} LinesOfJoin(lines: seq<string>)
    requires lines != [] && forall l :: l in lines ==> Lacks(l, '\n')
    ensures var n := |lines| - 1;
            Lines(Join(lines, '\n')) == StripLines(lines[..n]) + (if lines[n] == "" then [] else [lines[n]])
  {
    var n := |lines| - 1;
    assert lines[0] in lines;
    if n == 0 {
      if lines[0] != "" {
        NoNewline(lines[0]);
      }
      assert StripLines(lines[..0]) + [lines[0]] == [lines[0]];
    } else {
      LinesOfJoin(lines[1..]);
      LinesFirst(lines[0], Join(lines[1..], '\n'));
      assert lines[..n][1..] == lines[1..][..n - 1];
      var tail: seq<string> := if lines[n] == "" then [] else [lines[n]];
      assert [StripCR(lines[0])] + (StripLines(lines[1..][..n - 1]) + tail)
          == ([StripCR(lines[0])] + StripLines(lines[1..][..n - 1])) + tail;
    }
  }

  lemma {:induction false} StripLinesAppend(lines: seq<string>, last: string)
    ensures StripLines(lines + [last]) == StripLines(lines) + [StripCR(last)]
  {
    if lines == [] {
      assert [] + [last] == [last] && [last][1..] == [];
    } else {
      StripLinesAppend(lines[1..], last);
      assert (lines + [last])[1..] == lines[1..] + [last];
    }
  }

  lemma SectionValueOfJoin(lines: seq<string>)
    requires forall l :: l in lines ==> Lacks(l, '\n')
    ensures SectionValue(Join(lines, '\n')) == Frame(StripLines(lines))
  {
    if lines != [] {
      var n := |lines| - 1;
      LinesOfJoin(lines);
      assert lines == lines[..n] + [lines[n]];
      StripLinesAppend(lines[..n], lines[n]);
      StripCRTrims(lines[n]);
      FrameLast(StripLines(lines[..n]), lines[n], StripCR(lines[n]));
      FrameEmptyLast(StripLines(lines[..n]));
      assert StripLines(lines[..n]) + [] == StripLines(lines[..n]);
    }
  }

  lemma {:induction false} StripLinesLack(lines: seq<string>)
    requires forall l :: l in lines ==> Lacks(l, '\n')
    ensures forall l :: l in StripLines(lines) ==> Lacks(l, '\n')
  {
    if lines != [] {
      assert lines[0] in lines;
      StripLinesLack(lines[1..]);
    }
  }

  lemma {:induction false} DropEmptyMembers(lines: seq<string>)
    ensures forall l :: l in DropEmpty(lines) ==> l in lines
  {
    if lines != [] && lines[0] == "" {
      DropEmptyMembers(lines[1..]);
    }
  }

  lemma PiecesLack(value: string)
    ensures forall l :: l in Split(value, '\n') ==> Lacks(l, '\n')
  {
    forall l | l in Split(value, '\n')
      ensures Lacks(l, '\n')
    {
      var i :| 0 <= i < |Split(value, '\n')| && Split(value, '\n')[i] == l;
      SplitPiecesLack(value, '\n', i);
    }
  }

  /** Whatever the value: its lines, each without up to two final carriage
      returns, framed. */
  lemma ReadBackFrames(value: string)
    ensures ReadBack(value) == Frame(StripLines(StripLines(Split(value, '\n'))))
  {
    var lines := StripLines(Split(value, '\n'));
    PiecesLack(value);
    StripLinesLack(Split(value, '\n'));
    GatherFromEmpty(lines);
    DropEmptyMembers(lines);
    SectionValueOfJoin(DropEmpty(lines));
    DropBlankDropEmpty(lines);
  }

  // ---------- when a value reads back as its canonical form ----------

  predicate EndsInCR(line: string) {
    line != "" && line[|line| - 1] == '\r'
  }

  /** No carriage return stands before a newline. */
  predicate NoCRBeforeNewline(s: string) {
    var lines := Split(s, '\n');
    forall i :: 0 <= i < |lines| - 1 ==> !EndsInCR(lines[i])
  }

  /** The lines a frame keeps: blank lines at both ends dropped, the last one
      trimmed at its end. */
  function Kept(lines: seq<string>): seq<string> {
    if lines == [] then []
    else
      var n := |lines| - 1;
      if Trim(lines[n]) == "" then Kept(lines[..n]) else lines[..n] + [TrimEnd(lines[n])]
  }

  lemma {:induction false} KeptJoins(lines: seq<string>)
    ensures TrimEnd(Join(lines, '\n')) == Join(Kept(lines), '\n')
  {
    if lines != [] {
      var n := |lines| - 1;
      assert lines == lines[..n] + [lines[n]];
      BlankEnds(lines[n]);
      if n == 0 {
        assert lines[..0] == [];
      } else {
        var before := Join(lines[..n], '\n');
        JoinAppend(lines[..n], lines[n]);
        if Trim(lines[n]) == "" {
          KeptJoins(lines[..n]);
          TrimEndTail(before + ['\n'], lines[n], "");
          TrimEndSkips(before, "\n");
          assert before + ['\n'] + "" == before + "\n";
        } else {
          JoinAppend(lines[..n], TrimEnd(lines[n]));
          var b := TrimEndShape(lines[n]);
          TrimEndSkips(before + ['\n'] + TrimEnd(lines[n]), b);
          assert before + ['\n'] + lines[n] == before + ['\n'] + TrimEnd(lines[n]) + b;
        }
      }
    }
  }

  lemma {:induction false} StripLinesAt(lines: seq<string>, i: nat)
    requires i < |lines|
    ensures StripLines(lines)[i] == StripCR(lines[i])
  {
    if i > 0 {
      StripLinesAt(lines[1..], i - 1);
    }
  }

  /** Dropping carriage returns moves nothing but the lines it shortens. */
  lemma {:induction false} KeptStripped(lines: seq<string>)
    ensures |Kept(StripLines(lines))| == |Kept(lines)|
    ensures forall i :: 0 <= i < |Kept(lines)| ==>
              Kept(StripLines(lines))[i] == if i < |Kept(lines)| - 1 then StripCR(Kept(lines)[i]) else Kept(lines)[i]
  {
    if lines != [] {
      var n := |lines| - 1;
      assert lines == lines[..n] + [lines[n]];
      StripLinesAppend(lines[..n], lines[n]);
      assert StripLines(lines)[..n] == StripLines(lines[..n]);
      StripCRTrims(lines[n]);
      if Trim(lines[n]) == "" {
        KeptStripped(lines[..n]);
      } else {
        forall i | 0 <= i < n
          ensures StripLines(lines[..n])[i] == StripCR(lines[i])
        {
          StripLinesAt(lines[..n], i);
        }
      }
    }
  }

  lemma {:induction false} DropBlankStripped(lines: seq<string>)
    ensures DropBlank(StripLines(lines)) == StripLines(DropBlank(lines))
  {
    if lines != [] {
      StripCRTrims(lines[0]);
      if Trim(lines[0]) == "" {
        DropBlankStripped(lines[1..]);
      }
    }
  }

  lemma {:induction false} DropBlankMembers(lines: seq<string>)
    ensures forall l :: l in DropBlank(lines) ==> l in lines
  {
    if lines != [] && Trim(lines[0]) == "" {
      DropBlankMembers(lines[1..]);
    }
  }

  lemma {:induction false} KeptLack(lines: seq<string>)
    requires forall l :: l in lines ==> Lacks(l, '\n')
    ensures forall l :: l in Kept(lines) ==> Lacks(l, '\n')
  {
    if lines != [] {
      var n := |lines| - 1;
      assert lines[n] in lines;
      if Trim(lines[n]) == "" {
        KeptLack(lines[..n]);
      } else {
        var b := TrimEndShape(lines[n]);
        forall l | l in Kept(lines)
          ensures Lacks(l, '\n')
        {
          assert l in lines[..n] || l == TrimEnd(lines[n]);
        }
      }
    }
  }

  /** The kept lines of the value, and of the value read back: the same but for
      carriage returns ending a line other than the last. */
  lemma KeptOfValue(value: string) returns (kept: seq<string>, back: seq<string>)
    ensures kept == Kept(DropBlank(Split(value, '\n')))
    ensures Canonical(value) == Join(kept, '\n') && ReadBack(value) == Join(back, '\n')
    ensures |back| == |kept|
    ensures forall i :: 0 <= i < |kept| ==> back[i] == if i < |kept| - 1 then StripCR(StripCR(kept[i])) else kept[i]
    ensures forall l :: l in kept ==> Lacks(l, '\n')
    ensures forall l :: l in back ==> Lacks(l, '\n')
  {
    var lines := Split(value, '\n');
    var framed := DropBlank(lines);
    ReadBackFrames(value);
    DropBlankStripped(lines);
    DropBlankStripped(StripLines(lines));
    kept, back := Kept(framed), Kept(StripLines(StripLines(framed)));
    KeptJoins(framed);
    KeptJoins(StripLines(StripLines(framed)));
    KeptStripped(framed);
    KeptStripped(StripLines(framed));
    PiecesLack(value);
    DropBlankMembers(lines);
    KeptLack(framed);
    StripLinesLack(framed);
    StripLinesLack(StripLines(framed));
    KeptLack(StripLines(StripLines(framed)));
  }

  /** A value reads back as its canonical form exactly when that form has no
      carriage return before a newline. */
  lemma ReadsBackCanonicalIff(value: string)
    ensures ReadBack(value) == Canonical(value) <==> NoCRBeforeNewline(Canonical(value))
  {
    var kept, back := KeptOfValue(value);
    if kept == [] {
      EmptyHasNoCR();
    } else {
      KeptNoCR(kept);
      SameWhenKept(kept, back);
    }
  }

  lemma EmptyHasNoCR()
    ensures NoCRBeforeNewline("")
  {
  }

  lemma KeptNoCR(kept: seq<string>)
    requires kept != [] && forall l :: l in kept ==> Lacks(l, '\n')
    ensures NoCRBeforeNewline(Join(kept, '\n')) <==> forall i :: 0 <= i < |kept| - 1 ==> !EndsInCR(kept[i])
  {
    SplitJoin(kept, '\n');
  }

  /** The lines read back join to the kept lines' text only when they are those lines. */
  lemma SameWhenKept(kept: seq<string>, back: seq<string>)
    requires kept != [] && |back| == |kept|
    requires forall i :: 0 <= i < |kept| ==> back[i] == if i < |kept| - 1 then StripCR(StripCR(kept[i])) else kept[i]
    requires forall l :: l in kept ==> Lacks(l, '\n')
    requires forall l :: l in back ==> Lacks(l, '\n')
    ensures Join(back, '\n') == Join(kept, '\n') <==> forall i :: 0 <= i < |kept| - 1 ==> !EndsInCR(kept[i])
  {
    if Join(back, '\n') == Join(kept, '\n') {
      SplitJoin(kept, '\n');
      SplitJoin(back, '\n');
    }
    if forall i :: 0 <= i < |kept| - 1 ==> !EndsInCR(kept[i]) {
      assert back == kept;
    }
  }

  /** A value that does not: the carriage return is gone when it is read back. */
  lemma CarriageReturnIsLost()
    ensures ReadBack("a\r\nb") != Canonical("a\r\nb")
  {
    var value := "a\r\nb";
    assert Trim(value) == value;
    TrimmedIsCanonical(value);
    SplitAtSeparator("a\r", "b", '\n');
    assert "a\r" + ['\n'] + "b" == value;
    assert EndsInCR("a\r");
    assert !NoCRBeforeNewline(value);
    ReadsBackCanonicalIff(value);
  }

  /** In particular every value without carriage returns does. */
  lemma ReadsBackCanonical(value: string)
    requires Lacks(value, '\r')
    ensures ReadBack(value) == Canonical(value)
  {
    var kept, back := KeptOfValue(value);
    forall i | 0 <= i < |kept|
      ensures StripCR(kept[i]) == kept[i]
    {
      KeptCharacters(value, kept, i);
    }
    assert back == kept;
  }

  lemma {:induction false} JoinMember(lines: seq<string>, i: nat, c: char)
    requires i < |lines| && c in lines[i]
    ensures c in Join(lines, '\n')
  {
    if |lines| > 1 && i > 0 {
      JoinMember(lines[1..], i - 1, c);
    }
  }

  lemma {:induction false} CanonicalMember(lines: seq<string>, c: char)
    requires c in Join(DropBlank(lines), '\n')
    ensures c in Join(lines, '\n')
  {
    if lines != [] && Trim(lines[0]) == "" {
      CanonicalMember(lines[1..], c);
    }
  }

  lemma KeptCharacters(value: string, kept: seq<string>, i: nat)
    requires Lacks(value, '\r') && Canonical(value) == Join(kept, '\n') && i < |kept|
    ensures Lacks(kept[i], '\r')
  {
    if '\r' in kept[i] {
      JoinMember(kept, i, '\r');
      var b := TrimEndShape(Join(DropBlank(Split(value, '\n')), '\n'));
      CanonicalMember(Split(value, '\n'), '\r');
      JoinSplit(value, '\n');
    }
  }

  /** The single-line fields: trimming forgets the frame. */
  lemma {:induction false} TrimOfFrame(lines: seq<string>)
    ensures Trim(Frame(lines)) == Trim(Join(lines, '\n'))
  {
    if lines != [] && Trim(lines[0]) == "" {
      TrimOfFrame(lines[1..]);
      BlankEnds(lines[0]);
      var b := TrimEndShape(lines[0]);
      TrimSkips(lines[0], "", "");
      if |lines| > 1 {
        TrimSkips(lines[0] + ['\n'], Join(lines[1..], '\n'), "");
        assert Join(lines, '\n') == lines[0] + ['\n'] + Join(lines[1..], '\n') + "";
      }
    } else {
      TrimOfTrimEnd(Join(lines, '\n'));
    }
  }

  lemma TrimOfCanonical(value: string)
    ensures Trim(Canonical(value)) == Trim(value)
  {
    TrimOfFrame(Split(value, '\n'));
    JoinSplit(value, '\n');
  }

  // ---------- the same for single-line fields ----------

  lemma TrimStartStripped(line: string)
    requires Trim(line) != ""
    ensures TrimStart(StripCR(line)) == StripCR(TrimStart(line))
  {
    var a := TrimStartShape(line);
    var t := TrimStart(line);
    if EndsInCR(line) {
      assert StripCR(line) == a + StripCR(t);
      TrimStartSkips(a, StripCR(t));
    }
  }

  predicate EndsPlain(s: string) {
    s != "" && !IsWhite(s[|s| - 1])
  }

  /** The kept lines with the first one's indentation gone. */
  function Outdented(lines: seq<string>): (r: seq<string>)
    ensures |r| == |lines|
  {
    if lines == [] then [] else [TrimStart(lines[0])] + lines[1..]
  }

  lemma TrimStartInside(a: string, b: string)
    requires Trim(a) != ""
    ensures TrimStart(a + b) == TrimStart(a) + b
  {
    var lead := TrimStartShape(a);
    TrimStartSkips(lead, TrimStart(a) + b);
    assert a + b == lead + (TrimStart(a) + b);
  }

  lemma TrimBy(s: string, t: string)
    requires TrimStart(s) == t && TrimEnd(t) == t
    ensures Trim(s) == t
  {
  }

  lemma TrimOfKept(lines: seq<string>)
    requires lines != [] && Trim(lines[0]) != ""
    requires TrimEnd(lines[|lines| - 1]) == lines[|lines| - 1] != ""
    ensures Trim(Join(lines, '\n')) == Join(Outdented(lines), '\n') != ""
  {
    TrimStartOfJoin(lines);
    OutdentedEnds(lines);
    JoinNotWhite(Outdented(lines));
    TrimBy(Join(lines, '\n'), Join(Outdented(lines), '\n'));
  }

  /** A list ending in a line that ends in no white space joins to such a text. */
  lemma JoinNotWhite(lines: seq<string>)
    requires lines != [] && EndsPlain(lines[|lines| - 1])
    ensures TrimEnd(Join(lines, '\n')) == Join(lines, '\n') != ""
  {
    JoinEnds(lines);
    TrimEndNoop(Join(lines, '\n'));
  }

  lemma OutdentedEnds(lines: seq<string>)
    requires lines != [] && Trim(lines[0]) != ""
    requires TrimEnd(lines[|lines| - 1]) == lines[|lines| - 1] != ""
    ensures EndsPlain(Outdented(lines)[|lines| - 1])
  {
    TrimEndShapeEnds(lines[|lines| - 1]);
    var a := TrimStartShape(lines[0]);
    assert TrimStart(lines[0]) != "";
  }

  lemma TrimStartOfJoin(lines: seq<string>)
    requires lines != [] && Trim(lines[0]) != ""
    ensures TrimStart(Join(lines, '\n')) == Join(Outdented(lines), '\n')
  {
    if |lines| > 1 {
      var rest := ['\n'] + Join(lines[1..], '\n');
      JoinCut(lines[0], lines[1..]);
      assert [lines[0]] + lines[1..] == lines;
      JoinCut(TrimStart(lines[0]), lines[1..]);
      TrimStartInside(lines[0], rest);
    }
  }

  lemma JoinCut(first: string, others: seq<string>)
    requires others != []
    ensures Join([first] + others, '\n') == first + (['\n'] + Join(others, '\n'))
  {
    assert ([first] + others)[1..] == others;
  }

  lemma TrimEndNoop(s: string)
    requires EndsPlain(s)
    ensures TrimEnd(s) == s
  {
  }

  lemma {:induction false} JoinEnds(lines: seq<string>)
    requires lines != [] && lines[|lines| - 1] != ""
    ensures Join(lines, '\n') != ""
    ensures var s, last := Join(lines, '\n'), lines[|lines| - 1]; s[|s| - 1] == last[|last| - 1]
  {
    if |lines| > 1 {
      JoinEnds(lines[1..]);
    }
  }

  lemma {:induction false} KeptEnds(lines: seq<string>)
    ensures var kept := Kept(lines);
            kept != [] ==> kept[0] == (if |kept| == 1 then TrimEnd(lines[0]) else lines[0])
                           && TrimEnd(kept[|kept| - 1]) == kept[|kept| - 1] != ""
    ensures lines != [] && Trim(lines[0]) != "" ==> Kept(lines) != []
  {
    if lines != [] {
      var n := |lines| - 1;
      BlankEnds(lines[n]);
      if Trim(lines[n]) == "" {
        KeptEnds(lines[..n]);
      } else {
        var b := TrimEndShape(lines[n]);
        TrimEndNoop(TrimEnd(lines[n]));
      }
    }
  }

  lemma {:induction false} DropBlankStarts(lines: seq<string>)
    ensures DropBlank(lines) != [] ==> Trim(DropBlank(lines)[0]) != ""
  {
    if lines != [] && Trim(lines[0]) == "" {
      DropBlankStarts(lines[1..]);
    }
  }

  /** A field that is trimmed when read comes back trimmed exactly when its
      canonical form has no carriage return before a newline. */
  lemma TrimsBackIff(value: string)
    ensures Trim(ReadBack(value)) == Trim(value) <==> NoCRBeforeNewline(Canonical(value))
    ensures Trim(ReadBack(value)) == "" <==> Trim(value) == ""
  {
    var kept, back := KeptOfValue(value);
    TrimOfCanonical(value);
    ReadsBackCanonicalIff(value);
    if kept == [] {
      assert Canonical(value) == "" == ReadBack(value);
    } else {
      TrimsBackKept(value, kept, back);
    }
  }

  lemma TrimsBackKept(value: string, kept: seq<string>, back: seq<string>)
    requires kept == Kept(DropBlank(Split(value, '\n'))) && kept != [] && |back| == |kept|
    requires forall i :: 0 <= i < |kept| ==> back[i] == if i < |kept| - 1 then StripCR(StripCR(kept[i])) else kept[i]
    requires forall l :: l in kept ==> Lacks(l, '\n')
    requires forall l :: l in back ==> Lacks(l, '\n')
    ensures Trim(Join(kept, '\n')) != "" && Trim(Join(back, '\n')) != ""
    ensures Trim(Join(kept, '\n')) == Trim(Join(back, '\n')) <==> kept == back
  {
    KeptNonBlank(value, kept);
    TrimOfKept(kept);
    TrimOfKept(back);
    if Trim(Join(kept, '\n')) == Trim(Join(back, '\n')) {
      OutdentedEqual(kept, back);
    }
  }

  lemma KeptNonBlank(value: string, kept: seq<string>)
    requires kept == Kept(DropBlank(Split(value, '\n'))) && kept != []
    ensures Trim(kept[0]) != "" && Trim(StripCR(StripCR(kept[0]))) != ""
    ensures TrimEnd(kept[|kept| - 1]) == kept[|kept| - 1] != ""
  {
    KeptEnds(DropBlank(Split(value, '\n')));
    FirstKept(Split(value, '\n'), kept);
    StripCRTrims(kept[0]);
    StripCRTrims(StripCR(kept[0]));
  }

  lemma FirstKept(lines: seq<string>, kept: seq<string>)
    requires kept == Kept(DropBlank(lines)) && kept != []
    ensures Trim(kept[0]) != ""
  {
    var framed := DropBlank(lines);
    KeptEnds(framed);
    DropBlankStarts(lines);
    TrimOfTrimEnd(framed[0]);
  }

  lemma OutdentedEqual(kept: seq<string>, back: seq<string>)
    requires kept != [] && |back| == |kept| && Trim(kept[0]) != ""
    requires forall i :: 0 <= i < |kept| ==> back[i] == if i < |kept| - 1 then StripCR(StripCR(kept[i])) else kept[i]
    requires forall l :: l in kept ==> Lacks(l, '\n')
    requires forall l :: l in back ==> Lacks(l, '\n')
    requires Join(Outdented(kept), '\n') == Join(Outdented(back), '\n')
    ensures forall i :: 0 <= i < |kept| - 1 ==> !EndsInCR(kept[i])
  {
    OutdentedLacks(kept);
    OutdentedLacks(back);
    SplitJoin(Outdented(kept), '\n');
    SplitJoin(Outdented(back), '\n');
    StripCRTrims(kept[0]);
    forall i | 0 <= i < |kept| - 1
      ensures !EndsInCR(kept[i])
    {
      assert Outdented(kept)[i] == Outdented(back)[i];
      if i == 0 {
        TrimStartStripped(kept[0]);
        TrimStartStripped(StripCR(kept[0]));
        var a := TrimStartShape(kept[0]);
        assert TrimStart(kept[0]) != "";
      }
    }
  }

  lemma OutdentedLacks(lines: seq<string>)
    requires lines != [] && forall l :: l in lines ==> Lacks(l, '\n')
    ensures forall l :: l in Outdented(lines) ==> Lacks(l, '\n')
  {
    var a := TrimStartShape(lines[0]);
    assert lines[0] in lines;
    assert forall c :: c in TrimStart(lines[0]) ==> c in lines[0];
  }

  // ---------- values already in canonical form ----------

  lemma TrimmedIsCanonical(value: string)
    requires Trim(value) == value
    ensures Canonical(value) == value
  {
    var lines := Split(value, '\n');
    JoinSplit(value, '\n');
    TrimIsTrimmed(value);
    if value != "" {
      TrimEndNoop(value);
      if Trim(lines[0]) == "" {
        FirstLineStarts(value);
      }
    } else {
      assert DropBlank(lines) == [];
    }
  }

  lemma FirstLineStarts(value: string)
    requires value != "" && !IsWhite(value[0])
    ensures value[0] != '\n' && Trim(Split(value, '\n')[0]) != ""
  {
    SplitStep(value, '\n');
    var first := Split(value, '\n')[0];
    assert first[0] == value[0] && first[0] in first;
    BlankIsWhite(first);
  }

  lemma BlankIsWhite(s: string)
    ensures Trim(s) == "" ==> AllWhite(s)
  {
    BlankEnds(s);
    var b := TrimEndShape(s);
  }

  /** The fields an unedited save leaves alone: trimmed, without a carriage
      return before a newline. */
  lemma TrimmedFieldReadsBackIff(value: string)
    ensures Trim(ReadBack(value)) == value <==> Trim(value) == value && NoCRBeforeNewline(value)
  {
    TrimsBackIff(value);
    if Trim(value) == value {
      TrimmedIsCanonical(value);
    }
    if Trim(ReadBack(value)) == value {
      TrimIsTrimmed(ReadBack(value));
      TrimOfTrimmed(value);
    }
  }

  lemma CanonicalIdempotent(value: string)
    ensures Canonical(value) == value && NoCRBeforeNewline(value) <==> ReadBack(value) == value
  {
    ReadsBackCanonicalIff(value);
    if ReadBack(value) == value {
      var kept, back := KeptOfValue(value);
      BackIsCanonical(value, kept, back);
    }
  }

  /** What is read back has nothing left to trim. */
  lemma BackIsCanonical(value: string, kept: seq<string>, back: seq<string>)
    requires kept == Kept(DropBlank(Split(value, '\n'))) && ReadBack(value) == Join(back, '\n') && |back| == |kept|
    requires forall i :: 0 <= i < |kept| ==> back[i] == if i < |kept| - 1 then StripCR(StripCR(kept[i])) else kept[i]
    requires forall l :: l in back ==> Lacks(l, '\n')
    ensures Canonical(ReadBack(value)) == ReadBack(value)
  {
    if kept == [] {
      TrimmedIsCanonical(Join(back, '\n'));
    } else {
      SplitJoin(back, '\n');
      BackEnds(value, kept, back);
      JoinNotWhite(back);
      FramedAsIs(Join(back, '\n'), back);
    }
  }

  lemma BackEnds(value: string, kept: seq<string>, back: seq<string>)
    requires kept == Kept(DropBlank(Split(value, '\n'))) && kept != [] && |back| == |kept|
    requires forall i :: 0 <= i < |kept| ==> back[i] == if i < |kept| - 1 then StripCR(StripCR(kept[i])) else kept[i]
    ensures Trim(back[0]) != "" && EndsPlain(back[|back| - 1])
  {
    KeptNonBlank(value, kept);
    TrimEndShapeEnds(kept[|kept| - 1]);
  }

  /** A text that starts with a line and ends in no white space is in canonical form. */
  lemma FramedAsIs(s: string, lines: seq<string>)
    requires lines != [] && Split(s, '\n') == lines && Trim(lines[0]) != "" && TrimEnd(s) == s
    ensures Canonical(s) == s
  {
    JoinSplit(s, '\n');
  }

  lemma TrimEndShapeEnds(s: string)
    requires TrimEnd(s) == s != ""
    ensures EndsPlain(s)
  {
    var b := TrimEndShape(s);
  }

  /** Only a blank value reads back as nothing. */
  lemma EmptyBackIff(value: string)
    ensures ReadBack(value) == "" <==> Canonical(value) == ""
  {
    var kept, back := KeptOfValue(value);
    if kept == [] {
      assert back == [];
    } else {
      BackEnds(value, kept, back);
      KeptNonBlank(value, kept);
      TrimEndShapeEnds(kept[|kept| - 1]);
      JoinNotWhite(kept);
      JoinNotWhite(back);
    }
  }
}
