/** Git as finishing a task meets it: two checkouts over one commit graph, calls
    that end well, badly or killed, and the runner that holds calls to a deadline. */
module GitWorld {
  import opened Porcelain

  /** A commit is its history. */
  datatype Commit = Commit(id: nat, parents: seq<Commit>)

  /** `a` is `d` or one of its ancestors. */
  predicate Ancestor(a: Commit, d: Commit)
    decreases d
  {
    a == d || exists i | 0 <= i < |d.parents| :: Ancestor(a, d.parents[i])
  }

  lemma {:induction false} AncestorTransitive(a: Commit, b: Commit, c: Commit)
    requires Ancestor(a, b) && Ancestor(b, c)
    ensures Ancestor(a, c)
    decreases c
  {
    if b != c {
      var i :| 0 <= i < |c.parents| && Ancestor(b, c.parents[i]);
      AncestorTransitive(a, b, c.parents[i]);
    }
  }

  function Height(c: Commit): (h: nat)
    ensures forall i :: 0 <= i < |c.parents| ==> Height(c.parents[i]) < h
    decreases c
  {
    1 + MaxHeight(c.parents)
  }

  function MaxHeight(cs: seq<Commit>): (h: nat)
    ensures forall i :: 0 <= i < |cs| ==> Height(cs[i]) <= h
    decreases cs, 0
  {
    if cs == [] then 0
    else
      var rest := MaxHeight(cs[1..]);
      if Height(cs[0]) > rest then Height(cs[0]) else rest
  }

  lemma {:induction false} AncestorHeight(a: Commit, d: Commit)
    requires Ancestor(a, d)
    ensures a == d || Height(a) < Height(d)
    decreases d
  {
    if a != d {
      var i :| 0 <= i < |d.parents| && Ancestor(a, d.parents[i]);
      AncestorHeight(a, d.parents[i]);
    }
  }

  /** Two commits that are each other's ancestors are one. */
  lemma AncestorAntisymmetric(a: Commit, b: Commit)
    requires Ancestor(a, b) && Ancestor(b, a)
    ensures a == b
  {
    AncestorHeight(a, b);
    AncestorHeight(b, a);
  }

  /** A checkout: its branch, an operation stopped half way, its status. */
  datatype Checkout = Checkout(branch: string, merging: bool, rebasing: bool, entries: seq<Entry>)

  datatype GitState = GitState(refs: map<string, Commit>, root: Checkout, tree: Checkout, hasRemote: bool)

  /** The git calls of `finish_task`. `AtRoot` says which checkout `-C` names. */
  datatype Call =
    | CurrentBranch
    | Status(atRoot: bool)
    | RemoteUrl
    | Pull(base: string)
    | ProbeMergeHead
    | AbortMerge
    | Rebase(onto: string)
    | AbortRebase
    | FastForward(branch: string)

  datatype Outcome =
    | Done(stdout: string)
    | Failed(stdout: string, stderr: string)
    | Killed

  predicate OnlyRootMoves(s: GitState, t: GitState) {
    && t.tree == s.tree && t.hasRemote == s.hasRemote
    && t.root.branch == s.root.branch && t.root.rebasing == s.root.rebasing
  }

  predicate OnlyTreeMoves(s: GitState, t: GitState) {
    t.root == s.root && t.hasRemote == s.hasRemote && t.tree.branch == s.tree.branch && t.tree.merging == s.tree.merging
  }

  /** No ref moves but `branch`. */
  predicate OnlyRefMoves(s: GitState, t: GitState, branch: string) {
    t.refs.Keys == s.refs.Keys && forall b | b in s.refs.Keys && b != branch :: t.refs[b] == s.refs[b]
  }

  /** What a call may answer and do. A killed call may have done any part of its
      work; one that failed may have stopped half way. */
  predicate Legal(call: Call, s: GitState, o: Outcome, t: GitState) {
    match call
    case CurrentBranch => t == s && (o.Done? ==> o.stdout == s.root.branch)
    case Status(atRoot) => t == s && (o.Done? ==> o.stdout == Print(if atRoot then s.root.entries else s.tree.entries))
    case RemoteUrl => t == s && (o.Done? ==> s.hasRemote) && (o.Failed? ==> !s.hasRemote)
    case Pull(_) =>
      && OnlyRootMoves(s, t) && OnlyRefMoves(s, t, s.root.branch)
      && (s.root.branch in s.refs ==> Ancestor(s.refs[s.root.branch], t.refs[s.root.branch]))
      && (o.Done? ==> !t.root.merging)
    case ProbeMergeHead => t == s && (o.Done? ==> s.root.merging) && (o.Failed? ==> !s.root.merging)
    case AbortMerge =>
      && OnlyRootMoves(s, t) && t.refs == s.refs
      && (o.Done? ==> !t.root.merging) && (t.root.merging ==> s.root.merging)
    case Rebase(onto) =>
      && OnlyTreeMoves(s, t) && OnlyRefMoves(s, t, s.tree.branch)
      && (o.Done? ==>
            && !t.tree.rebasing && onto in s.refs && s.tree.branch in s.refs
            && Ancestor(s.refs[onto], t.refs[s.tree.branch]))
    case AbortRebase =>
      && OnlyTreeMoves(s, t) && t.refs == s.refs
      && (o.Done? ==> !t.tree.rebasing) && (t.tree.rebasing ==> s.tree.rebasing)
    case FastForward(branch) =>
      && t.tree == s.tree && t.root.branch == s.root.branch && t.root.merging == s.root.merging
      && t.root.rebasing == s.root.rebasing && t.hasRemote == s.hasRemote
      && (t.refs == s.refs || ForwardedTo(s, t, branch))
      && (o.Done? ==>
            && s.root.branch in s.refs && branch in s.refs
            && (ForwardedTo(s, t, branch) || (t.refs == s.refs && Ancestor(s.refs[branch], s.refs[s.root.branch]))))
  }

  /** The checked-out branch moved along its own history to `branch`. */
  predicate ForwardedTo(s: GitState, t: GitState, branch: string) {
    && s.root.branch in s.refs && branch in s.refs
    && Ancestor(s.refs[s.root.branch], s.refs[branch])
    && t.refs == s.refs[s.root.branch := s.refs[branch]]
  }

  /** A call that is never started, and one killed before it did anything, leave
      the state alone. */
  lemma KilledIsLegal(call: Call, s: GitState)
    ensures Legal(call, s, Killed, s)
  {
    if call.Pull? && s.root.branch in s.refs {
      assert Ancestor(s.refs[s.root.branch], s.refs[s.root.branch]);
    }
  }

  /** `Unbounded` is the inner runner, `Until` the deadline runner around it. */
  datatype Runner = Unbounded | Until(deadline: int)

  /** One call as it went. A refused call started no subprocess. */
  datatype Record = Record(
    call: Call,
    runner: Runner,
    timeout: nat,
    start: int,
    end: int,
    refused: bool,
    outcome: Outcome,
    before: GitState,
    after: GitState
  )

  /** What the world does with one call: how it ends and how long it takes. */
  datatype Reply = Reply(outcome: Outcome, after: GitState, took: nat)

  function Min(a: int, b: int): int {
    if a < b then a else b
  }

  /** The world's reply, or a kill that did nothing if git could not give it. */
  function Honest(call: Call, s: GitState, reply: Reply): (r: (Outcome, GitState))
    ensures Legal(call, s, r.0, r.1)
  {
    if Legal(call, s, reply.outcome, reply.after) then (reply.outcome, reply.after)
    else
      KilledIsLegal(call, s);
      (Killed, s)
  }

  class Git {
    var state: GitState
    var now: int
    /** Every call so far, in order. */
    var log: seq<Record>
    /** The world's replies; a reply that git could not give reads as a kill. */
    var script: seq<Reply>

    /** The calls so far are one run up to now. */
    ghost predicate Valid()
      reads this
    {
      Chronicle(log) && (log != [] ==> log[|log| - 1].end <= now && log[|log| - 1].after == state)
    }

    constructor (state: GitState, now: int, script: seq<Reply>)
      ensures Valid() && this.state == state && this.now == now && log == [] && this.script == script
    {
      this.state, this.now, this.log, this.script := state, now, [], script;
    }

    /** Waits for the call's end, or until it is killed after `bound`. */
    method Await(call: Call, bound: nat) returns (outcome: Outcome)
      modifies this
      ensures Legal(call, old(state), outcome, state) && old(now) <= now <= old(now) + bound
      ensures log == old(log)
      ensures AnswersAs(call, bound, old(state), old(now), old(script), outcome, state, now, script)
    {
      if script == [] {
        KilledIsLegal(call, state);
        return Killed;
      }
      var reply := script[0];
      script := script[1..];
      var answer := Honest(call, state, reply);
      outcome, state := answer.0, answer.1;
      now := now + Min(reply.took, bound);
    }

    /** `run_with_timeout`, directly or through the deadline runner: a call that
        would start at or past the deadline is refused, any other is killed at the
        nearer of its own timeout and the deadline. */
    method Run(call: Call, timeout: nat, runner: Runner) returns (outcome: Outcome)
      requires Valid()
      modifies this
      ensures Valid()
      ensures var refused := runner.Until? && old(now) >= runner.deadline;
              var r := Record(call, runner, timeout, old(now), now, refused, outcome, old(state), state);
              log == old(log) + [r] && Sane(r)
      ensures if runner.Until? && old(now) >= runner.deadline
              then outcome == Killed && state == old(state) && now == old(now) && script == old(script)
              else
                var bound := if runner.Until? && runner.deadline - old(now) < timeout
                             then runner.deadline - old(now) else timeout;
                AnswersAs(call, bound, old(state), old(now), old(script), outcome, state, now, script)
    {
      var before, start := state, now;
      if runner.Until? && now >= runner.deadline {
        var refused := Record(call, runner, timeout, start, now, true, Killed, before, state);
        RefusedIsSane(refused);
        Note(refused);
        return Killed;
      }
      var bound := if runner.Until? && runner.deadline - now < timeout then runner.deadline - now else timeout;
      outcome := Await(call, bound);
      var made := Record(call, runner, timeout, start, now, false, outcome, before, state);
      AnsweredIsSane(made, bound);
      Note(made);
    }

    /** The call goes into the log. */
    method Note(r: Record)
      requires Chronicle(log) && Sane(r) && (log != [] ==> Follows(log[|log| - 1], r))
      requires r.end == now && r.after == state
      modifies this`log
      ensures Valid() && log == old(log) + [r]
    {
      ChronicleGrows(log, r);
      log := log + [r];
    }
  }

  /** The world answers with its next reply, if git could give that, and else with a
      kill that did nothing; the time that takes is cut off at the bound. */
  ghost predicate AnswersAs(call: Call, bound: nat, before: GitState, start: int, script: seq<Reply>,
                            outcome: Outcome, after: GitState, end: int, rest: seq<Reply>) {
    if script == [] then outcome == Killed && after == before && end == start && rest == []
    else
      var reply := script[0];
      && rest == script[1..]
      && end == start + (if reply.took < bound then reply.took else bound)
      && (if Legal(call, before, reply.outcome, reply.after) then outcome == reply.outcome && after == reply.after
          else outcome == Killed && after == before)
  }

  /** What holds of every recorded call: what the world did is legal, a call ends
      within its timeout, and one through the deadline runner starts before the
      deadline and ends by it, or is not started at all. */
  ghost predicate Sane(r: Record) {
    && r.start <= r.end <= r.start + r.timeout
    && Legal(r.call, r.before, r.outcome, r.after)
    && (r.refused <==> r.runner.Until? && r.start >= r.runner.deadline)
    && (r.refused ==> r.outcome == Killed && r.after == r.before && r.end == r.start)
    && (r.runner.Until? && !r.refused ==> r.end <= r.runner.deadline)
  }

  lemma RefusedIsSane(r: Record)
    requires r.refused && r.runner.Until? && r.start >= r.runner.deadline
    requires r.outcome == Killed && r.after == r.before && r.end == r.start
    ensures Sane(r)
  {
    KilledIsLegal(r.call, r.before);
  }

  lemma AnsweredIsSane(r: Record, bound: nat)
    requires !r.refused && Legal(r.call, r.before, r.outcome, r.after)
    requires r.start <= r.end <= r.start + bound && bound <= r.timeout
    requires r.runner.Until? ==> r.start < r.runner.deadline && r.start + bound <= r.runner.deadline
    ensures Sane(r)
  {
  }

  /** A call finds the clock and the state as the one before left them, or later. */
  ghost predicate Follows(r: Record, next: Record) {
    r.end <= next.start && next.before == r.after
  }

  /** A run's calls, one after the other. */
  ghost predicate Chronicle(log: seq<Record>) {
    log != [] ==>
      var n := |log| - 1;
      Chronicle(log[..n]) && Sane(log[n]) && (n > 0 ==> Follows(log[n - 1], log[n]))
  }

  lemma ChronicleGrows(log: seq<Record>, r: Record)
    requires Chronicle(log) && Sane(r) && (log != [] ==> Follows(log[|log| - 1], r))
    ensures Chronicle(log + [r])
  {
    assert (log + [r])[..|log|] == log;
  }

  /** The clock never goes back over a whole run. */
  lemma {:induction false} ChronicleMeans(log: seq<Record>)
    requires Chronicle(log)
    ensures forall i :: 0 <= i < |log| ==> Sane(log[i])
    ensures forall i, j :: 0 <= i < j < |log| ==> log[i].end <= log[j].start
    ensures forall i, j :: 0 <= i && j == i + 1 < |log| ==> log[j].before == log[i].after
  {
    if log != [] {
      var n := |log| - 1;
      ChronicleMeans(log[..n]);
      assert forall i :: 0 <= i < n ==> log[..n][i] == log[i];
      forall i | 0 <= i < n
        ensures log[i].end <= log[n].start
      {
        assert i < n - 1 ==> log[i].end <= log[n - 1].start <= log[n - 1].end;
      }
    }
  }

  /** Once the deadline runner has refused a call it starts nothing more, whatever
      runs in between; and a run that goes on through it alone ends in the state it
      had. */
  lemma {:induction false} RefusalsStick(log: seq<Record>, i: nat)
    requires Chronicle(log) && i < |log| && log[i].refused
    ensures forall j | i <= j < |log| && log[j].runner == log[i].runner ::
              log[j].refused && log[j].outcome == Killed && log[j].end == log[j].start && log[j].after == log[j].before
    ensures (forall j | i <= j < |log| :: log[j].runner == log[i].runner) ==> log[|log| - 1].after == log[i].before
    decreases |log| - i
  {
    ChronicleMeans(log);
    assert forall j | i < j < |log| :: log[i].end <= log[j].start;
    if i + 1 < |log| && log[i + 1].runner == log[i].runner {
      RefusalsStick(log, i + 1);
    }
  }
}
