/** The hold on the machine's sleep: the loop that listens to the helper until it
    exits, the drain that follows, and the events it reports. */
module KeepAwake {
  import opened Prelude
  import opened Trimming

  const READY: string := "ready"

  /** How waiting on the helper ended, each with its own words. */
  datatype Status = Exited(status: string) | NotWaited(error: string)

  datatype Reason = CouldNotStart(error: string) | Said(line: string) | Silent(status: Status)

  datatype HoldEvent = Granted | Refused(reason: Reason) | Ended(reason: Reason)

  /** What happens while the loop runs: the helper and what it started write, ends
      of streams and read errors count as `None`, and the loop takes one ready
      branch of its select at a time, in whatever order. */
  datatype Step =
    | WroteOut(line: Option<string>)
    | WroteErr(chunk: Option<string>)
    | PolledOut
    | PolledErr

  // ---------- pipes ----------

  /** What was written and not read yet, and whether the loop still reads it. */
  datatype Pipe<T> = Pipe(queue: seq<Option<T>>, reading: bool)

  /** What reading a pipe to its end gives: everything before its first `None`. */
  function Before<T>(items: seq<Option<T>>): seq<T> {
    if items == [] || items[0] == None then [] else [items[0].value] + Before(items[1..])
  }

  lemma {:induction false} BeforeAppend<T>(items: seq<Option<T>>, item: Option<T>)
    ensures Before(items + [item]) ==
            if None in items || item == None then Before(items) else Before(items) + [item.value]
  {
    if items == [] {
      assert items + [item] == [item];
    } else if items[0] != None {
      BeforeAppend(items[1..], item);
      assert (items + [item])[1..] == items[1..] + [item];
      assert items == [items[0]] + items[1..];
      if item.Some? {
        assert [items[0].value] + (Before(items[1..]) + [item.value]) == Before(items) + [item.value];
      }
    }
  }

  /** The loop has heard `heard` of what was written, and the rest is still queued
      or past the end of the stream. */
  ghost predicate Fits<T>(p: Pipe<T>, written: seq<Option<T>>, heard: seq<T>) {
    if p.reading then Before(written) == heard + Before(p.queue) && (None in written <==> None in p.queue)
    else Before(written) == heard && None in written
  }

  lemma WriteFits<T>(p: Pipe<T>, written: seq<Option<T>>, heard: seq<T>, item: Option<T>)
    requires Fits(p, written, heard)
    ensures Fits(p.(queue := p.queue + [item]), written + [item], heard)
  {
    BeforeAppend(written, item);
    BeforeAppend(p.queue, item);
    if item.Some? {
      assert heard + (Before(p.queue) + [item.value]) == (heard + Before(p.queue)) + [item.value];
    }
  }

  lemma ReadFits<T>(p: Pipe<T>, written: seq<Option<T>>, heard: seq<T>)
    requires Fits(p, written, heard) && p.reading && p.queue != []
    ensures p.queue[0].Some? ==> Fits(Pipe(p.queue[1..], true), written, heard + [p.queue[0].value])
    ensures p.queue[0].None? ==> Fits(Pipe(p.queue[1..], false), written, heard)
  {
    assert p.queue == [p.queue[0]] + p.queue[1..];
    if p.queue[0].Some? {
      var rest := Before(p.queue[1..]);
      assert heard + ([p.queue[0].value] + rest) == (heard + [p.queue[0].value]) + rest;
    } else {
      assert heard + [] == heard;
    }
  }

  /** With nothing left to read, everything before the end of the stream was heard. */
  lemma DrainedFits<T>(p: Pipe<T>, written: seq<Option<T>>, heard: seq<T>)
    requires Fits(p, written, heard) && (p.reading ==> p.queue == [])
    ensures heard == Before(written)
  {
    assert heard + [] == heard;
  }

  // ---------- what the loop says ----------

  predicate IsReady(line: string) {
    Trim(line) == READY
  }

  ghost predicate AnyReady(lines: seq<string>) {
    exists line :: line in lines && IsReady(line)
  }

  /** `note_line`: granted on the first ready line, once. */
  method NoteLine(line: string, granted: bool, events: seq<HoldEvent>)
    returns (nowGranted: bool, nowEvents: seq<HoldEvent>)
    ensures nowGranted <==> granted || IsReady(line)
    ensures nowEvents == if nowGranted && !granted then events + [Granted] else events
  {
    nowGranted, nowEvents := granted, events;
    if !granted && Trim(line) == READY {
      nowGranted, nowEvents := true, events + [Granted];
    }
  }

  /** `describe_exit`: the last line with something on it, trimmed, else how the
      helper ended. */
  method DescribeExit(stderr: string, status: Status) returns (reason: Reason)
    ensures reason == Description(stderr, status)
  {
    var lines := Lines(stderr);
    var i := |lines|;
    assert lines[..i] == lines;
    while i > 0 && AllWhiteLine(lines[i - 1])
      invariant 0 <= i <= |lines|
      invariant LastSaid(lines) == LastSaid(lines[..i])
    {
      i := i - 1;
      assert lines[..i + 1][..i] == lines[..i];
    }
    return if i > 0 then Said(Trim(lines[i - 1])) else Silent(status);
  }

  predicate AllWhiteLine(line: string) {
    Trim(line) == []
  }

  function LastSaid(lines: seq<string>): Option<string> {
    if lines == [] then None
    else
      var n := |lines| - 1;
      if AllWhiteLine(lines[n]) then LastSaid(lines[..n]) else Some(lines[n])
  }

  function Description(stderr: string, status: Status): Reason {
    var said := LastSaid(Lines(stderr));
    if said.Some? then Said(Trim(said.value)) else Silent(status)
  }

  function Concat(chunks: seq<string>): string {
    if chunks == [] then [] else Concat(chunks[..|chunks| - 1]) + chunks[|chunks| - 1]
  }

  lemma ConcatAppend(chunks: seq<string>, chunk: string)
    ensures Concat(chunks + [chunk]) == Concat(chunks) + chunk
  {
    assert (chunks + [chunk])[..|chunks|] == chunks;
  }

  ghost function OutOf(steps: seq<Step>): seq<Option<string>> {
    if steps == [] then []
    else
      var n := |steps| - 1;
      if steps[n].WroteOut? then OutOf(steps[..n]) + [steps[n].line] else OutOf(steps[..n])
  }

  ghost function ErrOf(steps: seq<Step>): seq<Option<string>> {
    if steps == [] then []
    else
      var n := |steps| - 1;
      if steps[n].WroteErr? then ErrOf(steps[..n]) + [steps[n].chunk] else ErrOf(steps[..n])
  }

  /** What is to be reported of a helper that wrote this and ended so. */
  ghost function Report(out: seq<Option<string>>, err: seq<Option<string>>, status: Status): seq<HoldEvent> {
    var reason := Description(Concat(Before(err)), status);
    if AnyReady(Before(out)) then [Granted, Ended(reason)] else [Refused(reason)]
  }

  ghost function Granting(granted: bool): seq<HoldEvent> {
    if granted then [Granted] else []
  }

  ghost predicate OutSide(out: Pipe<string>, granted: bool, events: seq<HoldEvent>,
                          written: seq<Option<string>>, heard: seq<string>) {
    Fits(out, written, heard) && (granted <==> AnyReady(heard)) && events == Granting(granted)
  }

  ghost predicate ErrSide(err: Pipe<string>, errText: string, written: seq<Option<string>>, heard: seq<string>) {
    Fits(err, written, heard) && errText == Concat(heard)
  }

  lemma AnyReadyAppend(heard: seq<string>, line: string)
    ensures AnyReady(heard + [line]) <==> AnyReady(heard) || IsReady(line)
  {
    assert line in heard + [line];
    assert forall l :: l in heard + [line] <==> l in heard || l == line;
  }

  /** The loop takes the next line, or the end, of the helper's output. */
  method TakeLine(out: Pipe<string>, granted: bool, events: seq<HoldEvent>,
                  ghost written: seq<Option<string>>, ghost heard: seq<string>)
    returns (out2: Pipe<string>, granted2: bool, events2: seq<HoldEvent>, ghost heard2: seq<string>)
    requires OutSide(out, granted, events, written, heard) && out.reading && out.queue != []
    ensures OutSide(out2, granted2, events2, written, heard2) && out2.queue == out.queue[1..]
  {
    ReadFits(out, written, heard);
    granted2, events2, heard2 := granted, events, heard;
    match out.queue[0] {
      case Some(line) =>
        AnyReadyAppend(heard, line);
        granted2, events2 := NoteLine(line, granted, events);
        out2, heard2 := Pipe(out.queue[1..], true), heard + [line];
      case None =>
        out2 := Pipe(out.queue[1..], false);
    }
  }

  /** The loop takes the next chunk, or the end, of the helper's errors. */
  method TakeChunk(err: Pipe<string>, errText: string, ghost written: seq<Option<string>>, ghost heard: seq<string>)
    returns (err2: Pipe<string>, errText2: string, ghost heard2: seq<string>)
    requires ErrSide(err, errText, written, heard) && err.reading && err.queue != []
    ensures ErrSide(err2, errText2, written, heard2) && err2.queue == err.queue[1..]
  {
    ReadFits(err, written, heard);
    errText2, heard2 := errText, heard;
    match err.queue[0] {
      case Some(chunk) =>
        ConcatAppend(heard, chunk);
        err2, errText2, heard2 := Pipe(err.queue[1..], true), errText + chunk, heard + [chunk];
      case None =>
        err2 := Pipe(err.queue[1..], false);
    }
  }

  /** The select loop, until the helper exits. */
  method Listen(steps: seq<Step>)
    returns (out: Pipe<string>, err: Pipe<string>, granted: bool, events: seq<HoldEvent>, errText: string,
             ghost heardOut: seq<string>, ghost heardErr: seq<string>)
    ensures OutSide(out, granted, events, OutOf(steps), heardOut) && ErrSide(err, errText, ErrOf(steps), heardErr)
  {
    out, err, granted, events, errText, heardOut, heardErr := Pipe([], true), Pipe([], true), false, [], [], [], [];
    for i := 0 to |steps|
      invariant OutSide(out, granted, events, OutOf(steps[..i]), heardOut)
      invariant ErrSide(err, errText, ErrOf(steps[..i]), heardErr)
    {
      assert steps[..i + 1][..i] == steps[..i];
      match steps[i] {
        case WroteOut(line) =>
          WriteFits(out, OutOf(steps[..i]), heardOut, line);
          out := out.(queue := out.queue + [line]);
        case WroteErr(chunk) =>
          WriteFits(err, ErrOf(steps[..i]), heardErr, chunk);
          err := err.(queue := err.queue + [chunk]);
        case PolledOut =>
          if out.reading && out.queue != [] {
            out, granted, events, heardOut := TakeLine(out, granted, events, OutOf(steps[..i]), heardOut);
          }
        case PolledErr =>
          if err.reading && err.queue != [] {
            err, errText, heardErr := TakeChunk(err, errText, ErrOf(steps[..i]), heardErr);
          }
      }
    }
    assert steps[..|steps|] == steps;
  }

  /** `start`, from the spawn to the last event: `steps` run until the helper exits.
      Whichever branches the loop took, and however late, the events are those of
      what the helper wrote before it exited: no line of an open stream is lost. */
  method Start(spawned: Result<Status, string>, steps: seq<Step>) returns (events: seq<HoldEvent>)
    ensures spawned.Err? ==> events == [Refused(CouldNotStart(spawned.error))]
    ensures spawned.Ok? ==> events == Report(OutOf(steps), ErrOf(steps), spawned.value)
  {
    if spawned.Err? {
      return [Refused(CouldNotStart(spawned.error))];
    }
    var out: Pipe<string>, err: Pipe<string>, granted: bool, errText: string;
    ghost var heardOut: seq<string>, heardErr: seq<string>;
    out, err, granted, events, errText, heardOut, heardErr := Listen(steps);
    while out.reading && out.queue != []
      invariant OutSide(out, granted, events, OutOf(steps), heardOut)
      decreases |out.queue|
    {
      out, granted, events, heardOut := TakeLine(out, granted, events, OutOf(steps), heardOut);
    }
    DrainedFits(out, OutOf(steps), heardOut);
    while err.reading && err.queue != []
      invariant ErrSide(err, errText, ErrOf(steps), heardErr)
      decreases |err.queue|
    {
      err, errText, heardErr := TakeChunk(err, errText, ErrOf(steps), heardErr);
    }
    DrainedFits(err, ErrOf(steps), heardErr);
    var reason := DescribeExit(errText, spawned.value);
    events := events + [if granted then Ended(reason) else Refused(reason)];
  }

  // ---------- what the events promise ----------

  /** At most one grant, and then exactly one end of the hold or refusal. */
  lemma ReportShape(out: seq<Option<string>>, err: seq<Option<string>>, status: Status)
    ensures var events := Report(out, err, status);
            || (|events| == 1 && events[0].Refused?)
            || (|events| == 2 && events[0] == Granted && events[1].Ended?)
    ensures Granted in Report(out, err, status) <==>
            exists i :: 0 <= i < |out| && out[i].Some? && Trim(out[i].value) == "ready" && None !in out[..i]
  {
    BeforeMeaning(out);
    var lines := Before(out);
    forall i | 0 <= i < |out| && out[i].Some? && None !in out[..i]
      ensures out[i].value in lines
    {
      assert lines[i] == out[i].value;
    }
    if AnyReady(lines) {
      var line :| line in lines && IsReady(line);
      var i :| 0 <= i < |lines| && lines[i] == line;
      assert out[i].Some? && IsReady(out[i].value) && None !in out[..i];
    }
  }

  /** What is heard of a stream is its items up to its first end. */
  lemma {:induction false} BeforeMeaning<T>(items: seq<Option<T>>)
    ensures |Before(items)| <= |items|
    ensures forall i :: 0 <= i < |Before(items)| ==> items[i] == Some(Before(items)[i]) && None !in items[..i]
    ensures |Before(items)| < |items| ==> items[|Before(items)|] == None
    ensures forall i :: |Before(items)| < i <= |items| ==> None in items[..i]
  {
    if items != [] && items[0] != None {
      BeforeMeaning(items[1..]);
      forall i | 0 < i <= |items|
        ensures items[..i] == [items[0]] + items[1..][..i - 1]
      {
      }
    } else if items != [] {
      assert forall i :: 0 < i <= |items| ==> items[..i][0] == None;
    }
  }

  /** The reason is the last line of the errors with something on it, trimmed; how the
      helper ended only when there is none. */
  lemma DescriptionMeaning(stderr: string, status: Status)
    ensures var lines := Lines(stderr);
            if exists i :: 0 <= i < |lines| && Trim(lines[i]) != "" then
              exists i :: 0 <= i < |lines|
                          && Description(stderr, status) == Said(Trim(lines[i])) && Trim(lines[i]) != ""
                          && forall j :: i < j < |lines| ==> Trim(lines[j]) == ""
            else Description(stderr, status) == Silent(status)
  {
    LastSaidMeaning(Lines(stderr));
  }

  lemma {:induction false} LastSaidMeaning(lines: seq<string>)
    ensures LastSaid(lines).Some? <==> exists i :: 0 <= i < |lines| && !AllWhiteLine(lines[i])
    ensures LastSaid(lines).Some? ==>
              exists i :: 0 <= i < |lines| && lines[i] == LastSaid(lines).value && !AllWhiteLine(lines[i])
                          && forall j :: i < j < |lines| ==> AllWhiteLine(lines[j])
  {
    if lines != [] {
      var n := |lines| - 1;
      LastSaidMeaning(lines[..n]);
      assert forall i :: 0 <= i < n ==> lines[..n][i] == lines[i];
    }
  }
}
