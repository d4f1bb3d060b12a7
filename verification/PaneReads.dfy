/** The tree pane's other two sections: agents and commits as the board's reads
    bring them, and the jump a resumed agent is waited for with. */
module PaneReads {
  import opened Prelude

  datatype AgentRow = AgentRow(id: int, window: Option<string>)

  /** What a notice is about; the words are not modelled. */
  datatype Notice = Git | Diff | AgentList | AgentJump | CommitList

  const RESUME_JUMP_MAX_READS: nat := 30

  /** The agents section and what waits on it. */
  datatype Agents = Agents(rows: seq<AgentRow>, cursor: nat, pending: Option<int>, seen: nat, notice: Option<Notice>)

  function Selected(s: Agents): Option<int> {
    if s.cursor < |s.rows| then Some(s.rows[s.cursor].id) else None
  }

  function Last(rows: seq<AgentRow>): nat {
    if rows == [] then 0 else |rows| - 1
  }

  function Least(a: nat, b: nat): nat {
    if a < b then a else b
  }

  /** The first row of a task, or the length. */
  function Position(rows: seq<AgentRow>, id: int): (i: nat)
    ensures i <= |rows| && (i < |rows| ==> rows[i].id == id)
    ensures forall j :: 0 <= j < i ==> rows[j].id != id
  {
    if rows == [] || rows[0].id == id then 0 else 1 + Position(rows[1..], id)
  }

  /** `set_rows`: the cursor follows the task it was on. */
  function SetRows(s: Agents, rows: seq<AgentRow>): Agents {
    var on := Selected(s);
    var at := if on.Some? && Position(rows, on.value) < |rows| then Position(rows, on.value) else s.cursor;
    s.(rows := rows, cursor := Least(at, Last(rows)))
  }

  function ForgetIfMoved(s: Agents): Agents {
    if s.pending.Some? && Selected(s) != s.pending then s.(pending := None) else s
  }

  /** What a read of the task list does, and the window to jump to, if any. */
  function AdoptList(s: Agents, read: Result<seq<AgentRow>, string>): (Agents, Option<string>) {
    if read.Err? then (s.(notice := Some(AgentList)), None)
    else
      var rows := read.value;
      var cleared := if s.notice == Some(AgentList) then s.(notice := None) else s;
      var t := SetRows(cleared, rows);
      if s.pending.None? then (t, None)
      else
        var i := Position(rows, s.pending.value);
        if i < |rows| && rows[i].window.None? then
          if s.seen + 1 >= RESUME_JUMP_MAX_READS then
            (t.(seen := s.seen + 1, pending := None, notice := Some(AgentJump)), None)
          else (t.(seen := s.seen + 1), None)
        else (t.(pending := None), if i < |rows| then rows[i].window else None)
  }

  function AdoptAnswer(s: Agents, task: int, accepted: bool): Agents {
    if accepted then ForgetIfMoved(s.(pending := Some(task), seen := 0)) else s.(notice := Some(AgentJump))
  }

  class RenderState {
    var rows: seq<AgentRow>
    var cursor: nat
    var pendingJump: Option<int>
    var pendingJumpReads: nat
    var notice: Option<Notice>
    var commits: seq<string>
    var selectedCommit: Option<string>

    function View(): Agents
      reads this
    {
      Agents(rows, cursor, pendingJump, pendingJumpReads, notice)
    }

    constructor ()
      ensures View() == Agents([], 0, None, 0, None) && commits == [] && selectedCommit == None
    {
      rows, cursor, pendingJump, pendingJumpReads, notice := [], 0, None, 0, None;
      commits, selectedCommit := [], None;
    }

    method FindRow(id: int) returns (i: nat)
      ensures i == Position(rows, id)
    {
      i := 0;
      assert rows[0..] == rows;
      while i < |rows| && rows[i].id != id
        invariant i <= |rows| && Position(rows, id) == i + Position(rows[i..], id)
      {
        assert rows[i..][0] == rows[i] && rows[i..][1..] == rows[i + 1..];
        i := i + 1;
      }
    }

    /** `set_rows`. */
    method AdoptRows(fresher: seq<AgentRow>)
      modifies this`rows, this`cursor
      ensures View() == SetRows(old(View()), fresher)
    {
      var on := Selected(View());
      rows := fresher;
      var at := cursor;
      if on.Some? {
        var i := FindRow(on.value);
        if i < |rows| {
          at := i;
        }
      }
      cursor := Least(at, Last(rows));
    }

    /** `adopt_agent_list`. */
    method AdoptAgentList(read: Result<seq<AgentRow>, string>) returns (window: Option<string>)
      modifies this`rows, this`cursor, this`pendingJump, this`pendingJumpReads, this`notice
      ensures (View(), window) == AdoptList(old(View()), read)
    {
      if read.Err? {
        notice := Some(AgentList);
        return None;
      }
      AdoptRows(read.value);
      if notice == Some(AgentList) {
        notice := None;
      }
      if pendingJump.None? {
        return None;
      }
      var i := FindRow(pendingJump.value);
      if i < |rows| && rows[i].window.None? {
        pendingJumpReads := pendingJumpReads + 1;
        if pendingJumpReads >= RESUME_JUMP_MAX_READS {
          pendingJump := None;
          notice := Some(AgentJump);
        }
        return None;
      }
      window := if i < |rows| then rows[i].window else None;
      pendingJump := None;
    }

    /** `forget_pending_jump_if_moved`. */
    method ForgetPendingJumpIfMoved()
      modifies this`pendingJump
      ensures View() == ForgetIfMoved(old(View()))
    {
      if pendingJump.Some? && Selected(View()) != pendingJump {
        pendingJump := None;
      }
    }

    /** `adopt_resume_answer`. */
    method AdoptResumeAnswer(task: int, accepted: bool)
      modifies this`pendingJump, this`pendingJumpReads, this`notice
      ensures View() == AdoptAnswer(old(View()), task, accepted)
    {
      if accepted {
        pendingJump, pendingJumpReads := Some(task), 0;
        ForgetPendingJumpIfMoved();
      } else {
        notice := Some(AgentJump);
      }
    }

    /** `adopt_commit_list`: the selection stays on its commit while that is listed,
        and falls back to unstaged work when it is not; a failed read moves nothing. */
    method AdoptCommitList(read: Result<seq<string>, string>)
      modifies this`commits, this`selectedCommit, this`notice
      ensures read.Ok? ==>
                && commits == read.value
                && selectedCommit == (if old(selectedCommit).Some? && old(selectedCommit).value in commits
                                      then old(selectedCommit) else None)
                && notice == (if old(notice) == Some(CommitList) then None else old(notice))
      ensures read.Err? ==>
                commits == old(commits) && selectedCommit == old(selectedCommit) && notice == Some(CommitList)
    {
      if read.Err? {
        notice := Some(CommitList);
        return;
      }
      if selectedCommit.Some? && selectedCommit.value !in read.value {
        selectedCommit := None;
      }
      commits := read.value;
      if notice == Some(CommitList) {
        notice := None;
      }
    }
  }

  // ---------- whole runs ----------

  datatype Event =
    | ListRead(read: Result<seq<AgentRow>, string>)
    | Answered(task: int, accepted: bool)
      /** A key, wherever it leaves the cursor. */
    | Key(to: nat)

  datatype Jump = Jump(task: int, window: string)

  function Start(): Agents {
    Agents([], 0, None, 0, None)
  }

  function After(s: Agents, e: Event): Agents {
    match e
    case ListRead(read) => AdoptList(s, read).0
    case Answered(task, accepted) => AdoptAnswer(s, task, accepted)
    case Key(to) => ForgetIfMoved(s.(cursor := Least(to, Last(s.rows))))
  }

  function Run(events: seq<Event>): Agents {
    if events == [] then Start() else After(Run(events[..|events| - 1]), events[|events| - 1])
  }

  /** The jump an event makes, with the task it was waiting for. */
  function JumpOf(s: Agents, e: Event): Option<Jump> {
    if e.ListRead? && s.pending.Some? && AdoptList(s, e.read).1.Some?
    then Some(Jump(s.pending.value, AdoptList(s, e.read).1.value)) else None
  }

  /** Every jump of a run. */
  function Jumps(events: seq<Event>): seq<Jump> {
    if events == [] then []
    else
      var n := |events| - 1;
      var j := JumpOf(Run(events[..n]), events[n]);
      Jumps(events[..n]) + (if j.Some? then [j.value] else [])
  }

  function JumpsTo(jumps: seq<Jump>, task: int): nat {
    if jumps == [] then 0
    else JumpsTo(jumps[..|jumps| - 1], task) + (if jumps[|jumps| - 1].task == task then 1 else 0)
  }

  function Accepted(events: seq<Event>, task: int): nat {
    if events == [] then 0
    else
      var n := |events| - 1;
      Accepted(events[..n], task) + (if events[n] == Answered(task, true) then 1 else 0)
  }

  /** The working reads since the last accepted resume. */
  function ReadsSinceAccepted(events: seq<Event>): nat {
    if events == [] then 0
    else
      var n := |events| - 1;
      match events[n]
      case Answered(_, true) => 0
      case ListRead(Ok(_)) => ReadsSinceAccepted(events[..n]) + 1
      case _ => ReadsSinceAccepted(events[..n])
  }

  ghost predicate Waiting(s: Agents, seen: nat) {
    s.pending.Some? ==> Selected(s) == s.pending && s.seen == seen && seen < 30
  }

  lemma ReadKeepsWaiting(s: Agents, rows: seq<AgentRow>, seen: nat)
    requires Waiting(s, seen)
    ensures Waiting(AdoptList(s, Ok(rows)).0, seen + 1)
  {
  }

  /** While a resume is waited for, the cursor is on its row and fewer than the
      limit of working reads have come since it was accepted; so the wait is over
      by that many reads, whatever they say. */
  lemma {:induction false} WaitIsBounded(events: seq<Event>)
    ensures Waiting(Run(events), ReadsSinceAccepted(events))
    ensures ReadsSinceAccepted(events) >= 30 ==> Run(events).pending == None
  {
    if events != [] {
      var n := |events| - 1;
      WaitIsBounded(events[..n]);
      if events[n].ListRead? && events[n].read.Ok? {
        ReadKeepsWaiting(Run(events[..n]), events[n].read.value, ReadsSinceAccepted(events[..n]));
      }
    }
  }

  lemma JumpsToAppend(jumps: seq<Jump>, j: Jump, task: int)
    ensures JumpsTo(jumps + [j], task) == JumpsTo(jumps, task) + (if j.task == task then 1 else 0)
  {
    assert (jumps + [j])[..|jumps|] == jumps;
  }

  function One(b: bool): nat {
    if b then 1 else 0
  }

  /** A jump spends the wait, and only an acceptance starts one. */
  lemma StepSpends(s: Agents, e: Event, task: int)
    ensures One(JumpOf(s, e).Some? && JumpOf(s, e).value.task == task) + One(After(s, e).pending == Some(task))
            <= One(s.pending == Some(task)) + One(e == Answered(task, true))
  {
  }

  /** A resume accepted once is jumped to at most once. */
  lemma {:induction false} JumpsFollowAcceptance(events: seq<Event>, task: int)
    ensures JumpsTo(Jumps(events), task) + One(Run(events).pending == Some(task)) <= Accepted(events, task)
  {
    if events != [] {
      var n := |events| - 1;
      var j := JumpOf(Run(events[..n]), events[n]);
      JumpsFollowAcceptance(events[..n], task);
      StepSpends(Run(events[..n]), events[n], task);
      if j.Some? {
        JumpsToAppend(Jumps(events[..n]), j.value, task);
      } else {
        assert Jumps(events) == Jumps(events[..n]);
      }
    }
  }

  lemma AttachedIff(rows: seq<AgentRow>, task: int)
    ensures var i := Position(rows, task);
            (exists k :: FirstAttached(rows, k, task)) <==> FirstAttached(rows, i, task)
    ensures FirstAttached(rows, Position(rows, task), task) <==>
            Position(rows, task) < |rows| && rows[Position(rows, task)].window.Some?
  {
    if k: nat :| FirstAttached(rows, k, task) {
      assert k == Position(rows, task);
    }
  }

  /** A jump only goes to the attached window of the agent under the cursor, and
      a read that shows it so is never passed over. */
  lemma JumpsWhereTheCursorIs(events: seq<Event>, rows: seq<AgentRow>)
    ensures var s := Run(events);
            var (t, window) := AdoptList(s, Ok(rows));
            if s.pending.Some? && exists i :: FirstAttached(rows, i, s.pending.value)
            then Selected(t) == s.pending && t.pending == None && FirstAttached(rows, t.cursor, s.pending.value)
                 && window == rows[t.cursor].window
            else window == None
  {
    WaitIsBounded(events);
    var s := Run(events);
    if s.pending.Some? {
      var i := Position(rows, s.pending.value);
      AttachedIff(rows, s.pending.value);
    }
  }

  /** The task's row is row `i`, and it is attached. */
  ghost predicate FirstAttached(rows: seq<AgentRow>, i: nat, task: int) {
    i < |rows| && rows[i].id == task && rows[i].window.Some? && forall j :: 0 <= j < i ==> rows[j].id != task
  }

  /** The task's row is row `i`, and no window is known for it. */
  ghost predicate FirstDetached(rows: seq<AgentRow>, i: nat, task: int) {
    i < |rows| && rows[i].id == task && rows[i].window.None? && forall j :: 0 <= j < i ==> rows[j].id != task
  }

  lemma DetachedIff(rows: seq<AgentRow>, task: int)
    ensures (exists k :: FirstDetached(rows, k, task)) <==>
            Position(rows, task) < |rows| && rows[Position(rows, task)].window.None?
  {
    var i := Position(rows, task);
    if k: nat :| FirstDetached(rows, k, task) {
      assert k == i;
    }
    if i < |rows| && rows[i].window.None? {
      assert FirstDetached(rows, i, task);
    }
  }

  // ---------- when a resume is waited for ----------

  /** A resume was accepted with the cursor on its row. */
  ghost predicate StartsWait(s: Agents, e: Event, task: int) {
    e == Answered(task, true) && s.cursor < |s.rows| && s.rows[s.cursor].id == task
  }

  /** The wait goes on: the task is still listed and detached, in a read before the
      limit; a key leaves the cursor on its row; or nothing was learnt. */
  ghost predicate KeepsWait(s: Agents, e: Event, seen: nat, task: int) {
    match e
    case ListRead(Ok(rows)) => seen + 1 < 30 && exists i :: FirstDetached(rows, i, task)
    case ListRead(Err(_)) => true
    case Answered(_, accepted) => !accepted
    case Key(to) => s.rows != [] && s.rows[if to < |s.rows| then to else |s.rows| - 1].id == task
  }

  lemma StepWaits(s: Agents, e: Event, seen: nat, task: int)
    requires Waiting(s, seen)
    ensures After(s, e).pending == Some(task) <==>
            StartsWait(s, e, task) || (s.pending == Some(task) && KeepsWait(s, e, seen, task))
  {
    if e.ListRead? && e.read.Ok? {
      DetachedIff(e.read.value, task);
    }
  }

  ghost predicate WaitingSince(events: seq<Event>, i: nat, task: int)
    requires i < |events|
  {
    StartsWait(Run(events[..i]), events[i], task) && forall j | i < j < |events| :: KeptAt(events, j, task)
  }

  ghost predicate KeptAt(events: seq<Event>, j: nat, task: int)
    requires j < |events|
  {
    KeepsWait(Run(events[..j]), events[j], ReadsSinceAccepted(events[..j]), task)
  }

  lemma KeptEarlier(events: seq<Event>, n: nat, j: nat, task: int)
    requires j < n <= |events|
    ensures KeptAt(events[..n], j, task) <==> KeptAt(events, j, task)
  {
    assert events[..n][j] == events[j] && events[..n][..j] == events[..j];
  }

  lemma WaitingSinceStep(events: seq<Event>, i: nat, task: int)
    requires i + 1 < |events|
    ensures var n := |events| - 1;
            WaitingSince(events, i, task) <==> WaitingSince(events[..n], i, task) && KeptAt(events, n, task)
  {
    var n := |events| - 1;
    assert events[..n][..i] == events[..i];
    forall j | i < j < n
      ensures KeptAt(events[..n], j, task) <==> KeptAt(events, j, task)
    {
      KeptEarlier(events, n, j, task);
    }
  }

  /** Over any run, a task is waited for exactly when its resume was accepted with the
      cursor on its row and everything since left it to be waited for. */
  lemma {:induction false} WaitedForIff(events: seq<Event>, task: int)
    ensures Run(events).pending == Some(task) <==> exists i :: 0 <= i < |events| && WaitingSince(events, i, task)
  {
    if events != [] {
      var n := |events| - 1;
      WaitedForIff(events[..n], task);
      WaitIsBounded(events[..n]);
      StepWaits(Run(events[..n]), events[n], ReadsSinceAccepted(events[..n]), task);
      forall i | 0 <= i < n
        ensures WaitingSince(events, i, task) <==> WaitingSince(events[..n], i, task) && KeptAt(events, n, task)
      {
        WaitingSinceStep(events, i, task);
      }
      assert WaitingSince(events, n, task) <==> StartsWait(Run(events[..n]), events[n], task);
    }
  }

  // ---------- the cursor and the notice ----------

  ghost predicate Lists(rows: seq<AgentRow>, id: int) {
    exists k :: 0 <= k < |rows| && rows[k].id == id
  }

  lemma ListsIff(rows: seq<AgentRow>, id: int)
    ensures Lists(rows, id) <==> Position(rows, id) < |rows|
  {
  }

  lemma RowsSet(s: Agents, rows: seq<AgentRow>)
    ensures var t := SetRows(s, rows);
            && t.rows == rows
            && (if s.cursor < |s.rows| && Lists(rows, s.rows[s.cursor].id)
                then t.cursor < |rows| && rows[t.cursor].id == s.rows[s.cursor].id
                else t.cursor == (if s.cursor < |rows| then s.cursor else if rows == [] then 0 else |rows| - 1))
  {
    if s.cursor < |s.rows| {
      ListsIff(rows, s.rows[s.cursor].id);
    }
  }

  /** A read keeps the cursor on its task while that is listed, and inside the list when
      it is not. */
  lemma CursorFollows(s: Agents, rows: seq<AgentRow>)
    ensures var t := AdoptList(s, Ok(rows)).0;
            && t.rows == rows
            && (if s.cursor < |s.rows| && Lists(rows, s.rows[s.cursor].id)
                then t.cursor < |rows| && rows[t.cursor].id == s.rows[s.cursor].id
                else t.cursor == (if s.cursor < |rows| then s.cursor else if rows == [] then 0 else |rows| - 1))
  {
    RowsSet(s, rows);
    var cleared := if s.notice == Some(AgentList) then s.(notice := None) else s;
    assert SetRows(cleared, rows).cursor == SetRows(s, rows).cursor;
  }

  /** What the notice says after each answer. */
  lemma NoticeAfter(s: Agents, e: Event)
    ensures After(s, e).notice ==
            match e
            case ListRead(Err(_)) => Some(AgentList)
            case ListRead(Ok(rows)) =>
              if s.pending.Some? && s.seen + 1 >= 30 && exists i :: FirstDetached(rows, i, s.pending.value)
              then Some(AgentJump)
              else if s.notice == Some(AgentList) then None
              else s.notice
            case Answered(_, accepted) => if accepted then s.notice else Some(AgentJump)
            case Key(_) => s.notice
  {
    if e.ListRead? && e.read.Ok? && s.pending.Some? {
      DetachedIff(e.read.value, s.pending.value);
    }
  }
}
