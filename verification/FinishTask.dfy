/** `finish_task_with_abort_runner`: check the primary checkout, pull, rebase,
    fast-forward, aborting whatever stopped half way. */
module FinishTask {
  import opened Prelude
  import opened Text
  import opened Porcelain
  import opened GitWorld

  /** The step a failure is reported for. */
  datatype Step = BranchCheck | StatusCheck | RemoteCheck | PullStep | RebaseStep | FastForwardStep

  datatype FinishError =
    | NotOnDefaultBranch(current: string, expected: string)
    | DirtyPrimaryWorktree(files: seq<string>)
    | RebaseConflict(branch: string, files: seq<string>)
      /** `abortFailed`: the message adds that `git merge --abort` failed too. */
    | Other(step: Step, abortFailed: bool)

  type FinishResult = Result<(), FinishError>

  /** The branches of a finish and the bound on its git calls. */
  datatype Context = Context(branch: string, baseBranch: string, timeout: nat)

  /** 120 seconds, in milliseconds. */
  const SUBPROCESS_TIMEOUT: nat := 120_000

  /** `is_rebase_conflict`. */
  predicate IsRebaseConflict(stdout: string, stderr: string) {
    Contains(stderr, "CONFLICT") || Contains(stdout, "CONFLICT")
    || Contains(stderr, "could not apply") || Contains(stderr, "Merge conflict")
  }

  // ---------- what the run's log says about the aborts ----------

  /** An abort-side call that did what it was asked: the probe answered, and an
      abort succeeded or found nothing to abort. */
  ghost predicate AbortWorked(r: Record) {
    match r.call
    case ProbeMergeHead => r.outcome != Killed
    case AbortMerge => r.outcome.Done?
    case AbortRebase => r.outcome.Done? || !r.before.tree.rebasing
    case _ => true
  }

  ghost predicate AbortsWorked(log: seq<Record>) {
    forall i :: 0 <= i < |log| ==> AbortWorked(log[i])
  }

  ghost function Max(a: int, b: int): int {
    if a > b then a else b
  }

  /** The calls made since a run's log was `before`. */
  ghost function Since(before: seq<Record>, log: seq<Record>): seq<Record>
    requires before <= log
  {
    log[|before|..]
  }

  lemma AbortsWorkedSplit(a: seq<Record>, b: seq<Record>, c: seq<Record>)
    requires a <= b <= c
    ensures AbortsWorked(Since(a, c)) <==> AbortsWorked(Since(a, b)) && AbortsWorked(Since(b, c))
  {
    var x, y, z := Since(a, b), Since(b, c), Since(a, c);
    assert z == x + y;
    if AbortsWorked(z) {
      assert forall i :: 0 <= i < |x| ==> z[i] == x[i];
      assert forall i :: 0 <= i < |y| ==> z[|x| + i] == y[i];
    }
  }

  // ---------- what the run's log says about the steps ----------

  /** A call that undoes a step which stopped half way, or reads what it left. */
  predicate AbortSide(call: Call) {
    call == ProbeMergeHead || call == AbortMerge || call == AbortRebase || call == Status(false)
  }

  /** The calls of the steps themselves. */
  ghost function Steps(log: seq<Record>): seq<Record> {
    if log == [] then []
    else
      var n := |log| - 1;
      Steps(log[..n]) + (if AbortSide(log[n].call) then [] else [log[n]])
  }

  lemma {:induction false} StepsAppend(a: seq<Record>, b: seq<Record>)
    ensures Steps(a + b) == Steps(a) + Steps(b)
  {
    if b == [] {
      assert a + b == a;
    } else {
      var n := |b| - 1;
      StepsAppend(a, b[..n]);
      assert (a + b)[..|a + b| - 1] == a + b[..n];
    }
  }

  lemma StepsOfOne(r: Record)
    ensures Steps([r]) == if AbortSide(r.call) then [] else [r]
  {
    assert [r][..0] == [];
  }

  lemma StepsSplit(a: seq<Record>, b: seq<Record>, c: seq<Record>)
    requires a <= b <= c
    ensures Steps(Since(a, c)) == Steps(Since(a, b)) + Steps(Since(b, c))
  {
    StepsAppend(Since(a, b), Since(b, c));
    assert Since(a, c) == Since(a, b) + Since(b, c);
  }

  /** The step a call belongs to. */
  ghost function StepOf(call: Call): Option<Step> {
    match call
    case CurrentBranch => Some(BranchCheck)
    case Status(atRoot) => if atRoot then Some(StatusCheck) else None
    case RemoteUrl => Some(RemoteCheck)
    case Pull(_) => Some(PullStep)
    case Rebase(_) => Some(RebaseStep)
    case FastForward(_) => Some(FastForwardStep)
    case _ => None
  }

  /** The call the step makes. */
  ghost predicate MakesCall(step: Step, call: Call, ctx: Context) {
    match step
    case BranchCheck => call == CurrentBranch
    case StatusCheck => call == Status(true)
    case RemoteCheck => call == RemoteUrl
    case PullStep => call == Pull(ctx.baseBranch)
    case RebaseStep => call == Rebase(ctx.baseBranch)
    case FastForwardStep => call == FastForward(ctx.branch)
  }

  /** The call leaves nothing in the way of the next step: it was done, on the base
      branch, with a clean status; or there is no remote. */
  ghost predicate WentWell(r: Record, ctx: Context) {
    match r.call
    case CurrentBranch => r.outcome == Done(ctx.baseBranch)
    case Status(_) => r.outcome.Done? && ParsePorcelainFiles(r.outcome.stdout) == []
    case RemoteUrl => r.outcome != Killed
    case _ => r.outcome.Done?
  }

  /** The step after one that went well: without a remote there is no pull. */
  ghost function Next(r: Record): Option<Step> {
    match r.call
    case CurrentBranch => Some(StatusCheck)
    case Status(_) => Some(RemoteCheck)
    case RemoteUrl => Some(if r.outcome.Done? then PullStep else RebaseStep)
    case Pull(_) => Some(RebaseStep)
    case Rebase(_) => Some(FastForwardStep)
    case _ => None
  }

  /** The words git reports a conflict with. */
  ghost predicate SpeaksOfConflict(stdout: string, stderr: string) {
    || (exists i :: StandsAt("CONFLICT", stderr, i)) || (exists i :: StandsAt("CONFLICT", stdout, i))
    || (exists i :: StandsAt("could not apply", stderr, i)) || (exists i :: StandsAt("Merge conflict", stderr, i))
  }

  lemma ConflictWords(stdout: string, stderr: string)
    ensures IsRebaseConflict(stdout, stderr) <==> SpeaksOfConflict(stdout, stderr)
  {
    ContainsIff(stderr, "CONFLICT");
    ContainsIff(stdout, "CONFLICT");
    ContainsIff(stderr, "could not apply");
    ContainsIff(stderr, "Merge conflict");
  }

  /** What the error says of the call that did not go well. */
  ghost predicate Blames(r: Record, ctx: Context, error: FinishError) {
    match error
    case NotOnDefaultBranch(current, expected) =>
      r.call == CurrentBranch && r.outcome == Done(current) && current != expected == ctx.baseBranch
    case DirtyPrimaryWorktree(files) =>
      r.call == Status(true) && r.outcome.Done? && files == ParsePorcelainFiles(r.outcome.stdout) != []
    case RebaseConflict(branch, _) =>
      r.call.Rebase? && r.outcome.Failed? && SpeaksOfConflict(r.outcome.stdout, r.outcome.stderr)
      && branch == ctx.branch
    case Other(step, _) =>
      StepOf(r.call) == Some(step) && !r.outcome.Done? && (r.call == RemoteUrl ==> r.outcome == Killed)
      && (r.call.Rebase? && r.outcome.Failed? ==> !SpeaksOfConflict(r.outcome.stdout, r.outcome.stderr))
  }

  /** The second call is the one to make after the first, which went well. */
  ghost predicate Leads(r: Record, later: Record, ctx: Context) {
    WentWell(r, ctx) && Next(r).Some? && MakesCall(Next(r).value, later.call, ctx)
  }

  /** The calls are those of the steps from `first` on, each made once the one before
      went well, and the result is what the last of them makes of it. */
  ghost predicate Decided(steps: seq<Record>, first: Step, next: Option<Step>, ctx: Context, r: FinishResult) {
    && steps != [] && MakesCall(first, steps[0].call, ctx)
    && (forall i, j | 0 <= i && j == i + 1 < |steps| :: Leads(steps[i], steps[j], ctx))
    && Ends(steps[|steps| - 1], next, ctx, r)
  }

  ghost predicate Ends(last: Record, next: Option<Step>, ctx: Context, r: FinishResult) {
    match r
    case Ok(_) => WentWell(last, ctx) && Next(last) == next
    case Err(error) => !WentWell(last, ctx) && Blames(last, ctx, error)
  }

  lemma DecidedAlone(call: Record, first: Step, next: Option<Step>, ctx: Context, r: FinishResult)
    requires MakesCall(first, call.call, ctx) && Ends(call, next, ctx, r)
    ensures Decided([call], first, next, ctx, r)
  {
  }

  lemma DecidedThen(a: seq<Record>, b: seq<Record>, first: Step, middle: Step, next: Option<Step>, ctx: Context,
                    r: FinishResult)
    requires Decided(a, first, Some(middle), ctx, Ok(())) && Decided(b, middle, next, ctx, r)
    ensures Decided(a + b, first, next, ctx, r)
  {
    var steps := a + b;
    forall i, j | 0 <= i && j == i + 1 < |steps|
      ensures Leads(steps[i], steps[j], ctx)
    {
      if j < |a| {
        assert steps[i] == a[i] && steps[j] == a[j];
      } else if i >= |a| {
        var k := i - |a|;
        assert steps[i] == b[k] && steps[j] == b[k + 1];
      } else {
        assert steps[i] == a[|a| - 1] && steps[j] == b[0];
      }
    }
    assert steps[0] == a[0] && steps[|steps| - 1] == b[|b| - 1];
  }

  // ---------- when a finish succeeds, and which step an error names ----------

  ghost function CallsOf(steps: seq<Record>): seq<Call> {
    if steps == [] then [] else [steps[0].call] + CallsOf(steps[1..])
  }

  /** The steps of a finish, with or without a pull. */
  ghost function Plan(pulls: bool, ctx: Context): seq<Call> {
    if pulls then
      [CurrentBranch, Status(true), RemoteUrl, Pull(ctx.baseBranch), Rebase(ctx.baseBranch), FastForward(ctx.branch)]
    else [CurrentBranch, Status(true), RemoteUrl, Rebase(ctx.baseBranch), FastForward(ctx.branch)]
  }

  ghost predicate AllWell(steps: seq<Record>, ctx: Context) {
    forall i :: 0 <= i < |steps| ==> WentWell(steps[i], ctx)
  }

  /** The remote probe found one. */
  ghost predicate Pulls(steps: seq<Record>) {
    |steps| > 2 && steps[2].outcome.Done?
  }

  lemma InOrder(steps: seq<Record>, ctx: Context, r: FinishResult)
    requires Decided(steps, BranchCheck, None, ctx, r)
    ensures var plan := Plan(Pulls(steps), ctx);
            |steps| <= |plan| && forall i :: 0 <= i < |steps| ==> steps[i].call == plan[i]
    ensures forall i :: 0 <= i < |steps| - 1 ==> WentWell(steps[i], ctx)
  {
    forall i | 0 <= i < |steps| - 1
      ensures WentWell(steps[i], ctx)
    {
      assert Leads(steps[i], steps[i + 1], ctx);
    }
    assert |steps| > 1 ==> Leads(steps[0], steps[1], ctx);
    assert |steps| > 2 ==> Leads(steps[1], steps[2], ctx);
    assert |steps| > 3 ==> Leads(steps[2], steps[3], ctx);
    assert |steps| > 4 ==> Leads(steps[3], steps[4], ctx);
    assert |steps| > 5 ==> Leads(steps[4], steps[5], ctx);
    assert |steps| > 6 ==> Leads(steps[5], steps[6], ctx);
  }

  lemma {:induction false} CallsAre(steps: seq<Record>, plan: seq<Call>)
    requires |steps| == |plan| && forall i :: 0 <= i < |steps| ==> steps[i].call == plan[i]
    ensures CallsOf(steps) == plan
  {
    if steps != [] {
      CallsAre(steps[1..], plan[1..]);
      assert plan == [plan[0]] + plan[1..];
    }
  }

  lemma {:induction false} CallAt(steps: seq<Record>, i: nat)
    requires i < |steps|
    ensures |CallsOf(steps)| == |steps| && CallsOf(steps)[i] == steps[i].call
  {
    if i > 0 {
      CallAt(steps[1..], i - 1);
    } else if |steps| > 1 {
      CallAt(steps[1..], 0);
    }
  }

  /** A finish succeeds exactly when its steps are all made, in order, and each goes
      well: on the base branch, clean, with a remote probe that was answered, and pull,
      rebase and fast-forward done. */
  lemma SucceedsIff(steps: seq<Record>, ctx: Context, r: FinishResult)
    requires Decided(steps, BranchCheck, None, ctx, r)
    ensures r.Ok? <==> CallsOf(steps) == Plan(Pulls(steps), ctx) && AllWell(steps, ctx)
  {
    InOrder(steps, ctx, r);
    var plan, n := Plan(Pulls(steps), ctx), |steps| - 1;
    CallAt(steps, n);
    if r.Ok? {
      assert steps[n].call.FastForward?;
      assert |steps| == |plan|;
      CallsAre(steps, plan);
    } else {
      assert !WentWell(steps[n], ctx);
    }
  }

  /** What going well means of the two checks: the repo root is on the base branch, and
      its status has no entry. */
  lemma ChecksMean(r: Record, ctx: Context)
    requires Legal(r.call, r.before, r.outcome, r.after)
    ensures r.call == CurrentBranch ==>
              (WentWell(r, ctx) <==> r.outcome.Done? && r.before.root.branch == ctx.baseBranch)
    ensures r.call == Status(true) && (forall e :: e in r.before.root.entries ==> GitEntry(e)) ==>
              (WentWell(r, ctx) <==> r.outcome.Done? && r.before.root.entries == [])
  {
    if r.call == Status(true) && forall e :: e in r.before.root.entries ==> GitEntry(e) {
      DirtyFilesAreThePaths(r.before.root.entries);
    }
  }

  /** The step's call was made and not done; a remote probe was killed. */
  ghost predicate BrokeOff(call: Record, step: Step) {
    && StepOf(call.call) == Some(step) && !call.outcome.Done?
    && (step == RemoteCheck ==> call.outcome == Killed)
    && (step == RebaseStep && call.outcome.Failed? ==> !SpeaksOfConflict(call.outcome.stdout, call.outcome.stderr))
  }

  /** A failure names a step exactly when that step's call broke off, and is a conflict
      exactly when a rebase failed in the words git has for one. */
  lemma ErrorNamesTheStepIff(steps: seq<Record>, ctx: Context, r: FinishResult, step: Step)
    requires Decided(steps, BranchCheck, None, ctx, r)
    ensures (r.Err? && r.error.Other? && r.error.step == step) <==>
            exists i :: 0 <= i < |steps| && BrokeOff(steps[i], step)
    ensures (r.Err? && r.error.RebaseConflict?) <==>
            exists i :: 0 <= i < |steps| && steps[i].call.Rebase? && steps[i].outcome.Failed?
                        && SpeaksOfConflict(steps[i].outcome.stdout, steps[i].outcome.stderr)
  {
    InOrder(steps, ctx, r);
    var n := |steps| - 1;
    if r.Err? && r.error.Other? && r.error.step == step {
      assert BrokeOff(steps[n], step);
    }
    if i :| 0 <= i < |steps| && BrokeOff(steps[i], step) {
      assert !WentWell(steps[i], ctx);
      assert i == n;
    }
    if i :| 0 <= i < |steps| && steps[i].call.Rebase? && steps[i].outcome.Failed?
            && SpeaksOfConflict(steps[i].outcome.stdout, steps[i].outcome.stderr) {
      assert !WentWell(steps[i], ctx);
      assert i == n;
    }
  }

  /** The steps go through the runner, each call under its bound; the abort side goes
      through the abort runner. */
  ghost predicate RunThrough(log: seq<Record>, runner: Runner, abortRunner: Runner, timeout: nat) {
    forall r :: r in log ==>
      if AbortSide(r.call) then r.runner == abortRunner && r.timeout == timeout
      else
        && r.runner == runner
        && r.timeout == (match r.call
                         case CurrentBranch => 120_000
                         case Status(_) => 120_000
                         case RemoteUrl => 120_000
                         case _ => timeout)
  }

  /** One call more. */
  lemma OneCall(before: seq<Record>, log: seq<Record>, r: Record)
    requires log == before + [r]
    ensures before <= log && Since(before, log) == [r]
    ensures Steps(Since(before, log)) == if AbortSide(r.call) then [] else [r]
    ensures AbortsWorked(Since(before, log)) <==> AbortWorked(r)
  {
    assert Since(before, log) == [r];
    StepsOfOne(r);
    assert [r][0] == r;
  }

  /** Two stretches of a log, one after the other. */
  lemma LogSplit(a: seq<Record>, b: seq<Record>, c: seq<Record>, runner: Runner, abortRunner: Runner, timeout: nat)
    requires a <= b <= c
    requires RunThrough(Since(a, b), runner, abortRunner, timeout)
    requires RunThrough(Since(b, c), runner, abortRunner, timeout)
    ensures RunThrough(Since(a, c), runner, abortRunner, timeout)
    ensures Steps(Since(a, c)) == Steps(Since(a, b)) + Steps(Since(b, c))
    ensures AbortsWorked(Since(a, c)) <==> AbortsWorked(Since(a, b)) && AbortsWorked(Since(b, c))
  {
    assert Since(a, c) == Since(a, b) + Since(b, c);
    StepsSplit(a, b, c);
    AbortsWorkedSplit(a, b, c);
  }

  /** What a run of steps makes of its result, and which runner each call went through. */
  ghost predicate Accounted(before: seq<Record>, log: seq<Record>, first: Step, next: Option<Step>, ctx: Context,
                            runner: Runner, abortRunner: Runner, r: FinishResult) {
    && before <= log && Decided(Steps(Since(before, log)), first, next, ctx, r)
    && RunThrough(Since(before, log), runner, abortRunner, ctx.timeout)
  }

  /** Steps that ended well and the ones after them; or an error, which ends a finish
      wherever it comes. */
  lemma AccountedThen(a: seq<Record>, b: seq<Record>, c: seq<Record>, first: Step, middle: Step, next: Option<Step>,
                      ctx: Context, runner: Runner, abortRunner: Runner, r: FinishResult)
    requires Accounted(a, b, first, Some(middle), ctx, runner, abortRunner, Ok(()))
    requires Accounted(b, c, middle, next, ctx, runner, abortRunner, r)
    ensures Accounted(a, c, first, next, ctx, runner, abortRunner, r)
    ensures AbortsWorked(Since(a, c)) <==> AbortsWorked(Since(a, b)) && AbortsWorked(Since(b, c))
  {
    LogSplit(a, b, c, runner, abortRunner, ctx.timeout);
    DecidedThen(Steps(Since(a, b)), Steps(Since(b, c)), first, middle, next, ctx, r);
  }

  lemma AccountedError(a: seq<Record>, b: seq<Record>, first: Step, middle: Option<Step>, next: Option<Step>,
                       ctx: Context, runner: Runner, abortRunner: Runner, r: FinishResult)
    requires r.Err? && Accounted(a, b, first, middle, ctx, runner, abortRunner, r)
    ensures Accounted(a, b, first, next, ctx, runner, abortRunner, r)
  {
  }

  lemma AccountedAlone(before: seq<Record>, log: seq<Record>, call: Record, first: Step, next: Option<Step>,
                       ctx: Context, runner: Runner, abortRunner: Runner, r: FinishResult)
    requires before <= log && Steps(Since(before, log)) == [call]
    requires RunThrough(Since(before, log), runner, abortRunner, ctx.timeout)
    requires MakesCall(first, call.call, ctx) && Ends(call, next, ctx, r)
    ensures Accounted(before, log, first, next, ctx, runner, abortRunner, r)
  {
    DecidedAlone(call, first, next, ctx, r);
  }

  // ---------- the steps ----------

  /** Under a deadline the work is over by the deadline, or at once when it has
      passed, but for `spare` spent on aborts. */
  ghost predicate InTime(start: int, now: int, runner: Runner, spare: nat) {
    start <= now && (runner.Until? ==> now <= Max(start, runner.deadline) + spare)
  }

  lemma InTimeThen(start: int, middle: int, now: int, runner: Runner, spare: nat)
    requires InTime(start, middle, runner, 0) && InTime(middle, now, runner, spare)
    ensures InTime(start, now, runner, spare)
  {
  }

  /** What every step keeps: it only adds calls, and no branch appears, goes or is
      checked out. */
  twostate predicate Stepped(git: Git)
    reads git
  {
    && git.Valid() && old(git.log) <= git.log
    && git.state.root.branch == old(git.state.root.branch) && git.state.tree.branch == old(git.state.tree.branch)
    && git.state.refs.Keys == old(git.state.refs.Keys)
  }

  /** One call of a step or of the abort side. */
  method Do(git: Git, call: Call, timeout: nat, runner: Runner) returns (outcome: Outcome, ghost done: Record)
    requires git.Valid()
    modifies git
    ensures git.Valid() && git.log == old(git.log) + [done]
    ensures done.call == call && done.runner == runner && done.timeout == timeout && done.outcome == outcome
    ensures done.before == old(git.state) && Legal(call, old(git.state), outcome, git.state)
    ensures git.now <= old(git.now) + timeout && InTime(old(git.now), git.now, runner, 0)
    ensures Since(old(git.log), git.log) == [done]
    ensures Steps(Since(old(git.log), git.log)) == if AbortSide(call) then [] else [done]
    ensures AbortsWorked(Since(old(git.log), git.log)) <==> AbortWorked(done)
  {
    outcome := git.Run(call, timeout, runner);
    done := git.log[|git.log| - 1];
    OneCall(old(git.log), git.log, done);
  }

  /** `current_branch`, `dirty_files`: the repo root is on the base branch and clean,
      or nothing happens. */
  method CheckPrimaryWorktree(git: Git, baseBranch: string, runner: Runner,
                              ghost ctx: Context, ghost abortRunner: Runner)
    returns (r: FinishResult)
    requires git.Valid() && ctx.baseBranch == baseBranch
    modifies git
    ensures Stepped(git) && git.state == old(git.state) && InTime(old(git.now), git.now, runner, 0)
    ensures Accounted(old(git.log), git.log, BranchCheck, Some(RemoteCheck), ctx, runner, abortRunner, r)
    ensures AbortsWorked(Since(old(git.log), git.log))
    ensures r.Ok? ==> git.state.root.branch == baseBranch && ParsePorcelainFiles(Print(git.state.root.entries)) == []
    ensures r.Err? ==> CheckErrorFits(git.state.root, baseBranch, r.error)
  {
    r := CheckBranch(git, baseBranch, runner, ctx, abortRunner);
    if r.Err? {
      AccountedError(old(git.log), git.log, BranchCheck, Some(StatusCheck), Some(RemoteCheck), ctx,
                     runner, abortRunner, r);
      return;
    }
    ghost var before := git.log;
    r := CheckClean(git, runner, ctx, abortRunner);
    AccountedThen(old(git.log), before, git.log, BranchCheck, StatusCheck, Some(RemoteCheck), ctx,
                  runner, abortRunner, r);
  }

  /** What a failed check reports. */
  ghost predicate CheckErrorFits(root: Checkout, baseBranch: string, error: FinishError) {
    match error
    case NotOnDefaultBranch(current, expected) => current == root.branch != baseBranch == expected
    case DirtyPrimaryWorktree(files) => files == ParsePorcelainFiles(Print(root.entries)) != []
    case Other(step, abortFailed) => (step == BranchCheck || step == StatusCheck) && !abortFailed
    case RebaseConflict(_, _) => false
  }

  method CheckBranch(git: Git, baseBranch: string, runner: Runner, ghost ctx: Context, ghost abortRunner: Runner)
    returns (r: FinishResult)
    requires git.Valid() && ctx.baseBranch == baseBranch
    modifies git
    ensures Stepped(git) && git.state == old(git.state) && InTime(old(git.now), git.now, runner, 0)
    ensures Accounted(old(git.log), git.log, BranchCheck, Some(StatusCheck), ctx, runner, abortRunner, r)
    ensures AbortsWorked(Since(old(git.log), git.log))
    ensures r.Ok? ==> git.state.root.branch == baseBranch
    ensures r.Err? ==> CheckErrorFits(git.state.root, baseBranch, r.error)
  {
    var branch, done := Do(git, CurrentBranch, SUBPROCESS_TIMEOUT, runner);
    r := if !branch.Done? then Err(Other(BranchCheck, false))
         else if branch.stdout != baseBranch then Err(NotOnDefaultBranch(branch.stdout, baseBranch))
         else Ok(());
    AccountedAlone(old(git.log), git.log, done, BranchCheck, Some(StatusCheck), ctx, runner, abortRunner, r);
  }

  method CheckClean(git: Git, runner: Runner, ghost ctx: Context, ghost abortRunner: Runner) returns (r: FinishResult)
    requires git.Valid()
    modifies git
    ensures Stepped(git) && git.state == old(git.state) && InTime(old(git.now), git.now, runner, 0)
    ensures Accounted(old(git.log), git.log, StatusCheck, Some(RemoteCheck), ctx, runner, abortRunner, r)
    ensures AbortsWorked(Since(old(git.log), git.log))
    ensures r.Ok? ==> ParsePorcelainFiles(Print(git.state.root.entries)) == []
    ensures r.Err? ==> CheckErrorFits(git.state.root, ctx.baseBranch, r.error)
  {
    var status, done := Do(git, Status(true), SUBPROCESS_TIMEOUT, runner);
    if !status.Done? {
      r := Err(Other(StatusCheck, false));
    } else {
      var dirty := ParsePorcelainFiles(status.stdout);
      r := if dirty != [] then Err(DirtyPrimaryWorktree(dirty)) else Ok(());
    }
    AccountedAlone(old(git.log), git.log, done, StatusCheck, Some(RemoteCheck), ctx, runner, abortRunner, r);
  }

  /** A pull only moves the repo root: its branch forward, and a merge in and out. */
  ghost predicate PullMoves(s: GitState, t: GitState, base: string) {
    && OnlyRootMoves(s, t) && OnlyRefMoves(s, t, base)
    && (base in t.refs ==> Ancestor(s.refs[base], t.refs[base]))
  }

  lemma PullThenAbort(s: GitState, m: GitState, t: GitState, base: string)
    requires PullMoves(s, m, base) && OnlyRootMoves(m, t) && t.refs == m.refs
    ensures PullMoves(s, t, base)
  {
  }

  /** What a failed pull reports: whether `git merge --abort` failed too, and so
      whether the checkout may still be mid-merge. */
  ghost predicate PullErrorFits(log: seq<Record>, state: GitState, error: FinishError) {
    error.Other? && error.step == PullStep && log != [] &&
    var last := log[|log| - 1];
    && (error.abortFailed <==> last.call == AbortMerge && !last.outcome.Done?)
    && (state.root.merging ==> error.abortFailed || (last.call == ProbeMergeHead && last.outcome == Killed))
  }

  /** `pull_base`: pull when there is a remote, and abort a merge the pull left. */
  method PullBase(git: Git, baseBranch: string, runner: Runner, abortRunner: Runner, timeout: nat, ghost ctx: Context)
    returns (r: FinishResult)
    requires git.Valid() && git.state.root.branch == baseBranch
    requires ctx.baseBranch == baseBranch && ctx.timeout == timeout
    modifies git
    ensures Stepped(git) && PullMoves(old(git.state), git.state, baseBranch)
    ensures Accounted(old(git.log), git.log, RemoteCheck, Some(RebaseStep), ctx, runner, abortRunner, r)
    ensures abortRunner.Unbounded? ==> InTime(old(git.now), git.now, runner, 2 * timeout)
    ensures r.Ok? ==> InTime(old(git.now), git.now, runner, 0)
    ensures AbortsWorked(Since(old(git.log), git.log)) ==> (git.state.root.merging ==> old(git.state.root.merging))
    ensures r.Err? ==> r.error == Other(RemoteCheck, false) || PullErrorFits(git.log, git.state, r.error)
  {
    var hasRemote;
    r, hasRemote := HasOriginRemote(git, runner, abortRunner, ctx);
    if !hasRemote {
      return;
    }
    ghost var before := git.log;
    r := PullOrAbort(git, baseBranch, runner, abortRunner, timeout, ctx);
    AccountedThen(old(git.log), before, git.log, RemoteCheck, PullStep, Some(RebaseStep), ctx, runner, abortRunner, r);
  }

  /** `has_origin_remote`: a probe that was killed is an error, not "no remote". */
  method HasOriginRemote(git: Git, runner: Runner, ghost abortRunner: Runner, ghost ctx: Context)
    returns (r: FinishResult, hasRemote: bool)
    requires git.Valid()
    modifies git
    ensures Stepped(git) && git.state == old(git.state) && InTime(old(git.now), git.now, runner, 0)
    ensures Accounted(old(git.log), git.log, RemoteCheck, Some(if hasRemote then PullStep else RebaseStep), ctx,
                      runner, abortRunner, r)
    ensures AbortsWorked(Since(old(git.log), git.log))
    ensures r.Err? ==> r.error == Other(RemoteCheck, false)
    ensures hasRemote ==> r.Ok?
  {
    var remote, done := Do(git, RemoteUrl, SUBPROCESS_TIMEOUT, runner);
    r := if remote == Killed then Err(Other(RemoteCheck, false)) else Ok(());
    hasRemote := remote.Done?;
    AccountedAlone(old(git.log), git.log, done, RemoteCheck, Some(if hasRemote then PullStep else RebaseStep), ctx,
                   runner, abortRunner, r);
  }

  method PullOrAbort(git: Git, baseBranch: string, runner: Runner, abortRunner: Runner, timeout: nat,
                     ghost ctx: Context)
    returns (r: FinishResult)
    requires git.Valid() && git.state.root.branch == baseBranch
    requires ctx.baseBranch == baseBranch && ctx.timeout == timeout
    modifies git
    ensures Stepped(git) && PullMoves(old(git.state), git.state, baseBranch)
    ensures Accounted(old(git.log), git.log, PullStep, Some(RebaseStep), ctx, runner, abortRunner, r)
    ensures abortRunner.Unbounded? ==> InTime(old(git.now), git.now, runner, 2 * timeout)
    ensures r.Ok? ==> InTime(old(git.now), git.now, runner, 0)
    ensures AbortsWorked(Since(old(git.log), git.log)) ==> !git.state.root.merging
    ensures r.Err? ==> PullErrorFits(git.log, git.state, r.error)
  {
    ghost var done;
    r, done := TryPull(git, baseBranch, runner, abortRunner, timeout, ctx);
    if r.Err? {
      ghost var before, middle := git.log, git.state;
      var abortFailed := AbortMergeIfInProgress(git, abortRunner, timeout, runner);
      LogSplit(old(git.log), before, git.log, runner, abortRunner, timeout);
      PullThenAbort(old(git.state), middle, git.state, baseBranch);
      r := Err(Other(PullStep, abortFailed));
      assert [done] + [] == [done];
    }
    AccountedAlone(old(git.log), git.log, done, PullStep, Some(RebaseStep), ctx, runner, abortRunner, r);
  }

  method TryPull(git: Git, baseBranch: string, runner: Runner, ghost abortRunner: Runner, timeout: nat,
                 ghost ctx: Context)
    returns (r: FinishResult, ghost done: Record)
    requires git.Valid() && git.state.root.branch == baseBranch
    requires ctx.baseBranch == baseBranch && ctx.timeout == timeout
    modifies git
    ensures Stepped(git) && PullMoves(old(git.state), git.state, baseBranch)
    ensures Steps(Since(old(git.log), git.log)) == [done] && done.call == Pull(baseBranch)
    ensures RunThrough(Since(old(git.log), git.log), runner, abortRunner, timeout)
    ensures AbortsWorked(Since(old(git.log), git.log)) && InTime(old(git.now), git.now, runner, 0)
    ensures r == if done.outcome.Done? then Ok(()) else Err(Other(PullStep, false))
    ensures r.Ok? ==> !git.state.root.merging
  {
    var pulled;
    pulled, done := Do(git, Pull(baseBranch), timeout, runner);
    r := if pulled.Done? then Ok(()) else Err(Other(PullStep, false));
  }

  /** `abort_merge_if_in_progress`. */
  method AbortMergeIfInProgress(git: Git, runner: Runner, timeout: nat, ghost stepRunner: Runner) returns (failed: bool)
    requires git.Valid()
    modifies git
    ensures git.Valid() && old(git.log) <= git.log
    ensures Steps(Since(old(git.log), git.log)) == []
    ensures RunThrough(Since(old(git.log), git.log), stepRunner, runner, timeout)
    ensures old(git.now) <= git.now <= old(git.now) + 2 * timeout
    ensures OnlyRootMoves(old(git.state), git.state) && git.state.refs == old(git.state.refs)
    ensures |git.log| > |old(git.log)|
    ensures var last := git.log[|git.log| - 1];
            && (failed <==> last.call == AbortMerge && !last.outcome.Done?)
            && (git.state.root.merging ==> failed || (last.call == ProbeMergeHead && last.outcome == Killed))
    ensures AbortsWorked(Since(old(git.log), git.log)) ==> !git.state.root.merging
  {
    var probe, first := Do(git, ProbeMergeHead, timeout, runner);
    if !probe.Done? {
      return false;
    }
    ghost var before := git.log;
    var aborted, second := Do(git, AbortMerge, timeout, runner);
    LogSplit(old(git.log), before, git.log, stepRunner, runner, timeout);
    return !aborted.Done?;
  }

  /** `abort`: best effort. */
  method AbortTheRebase(git: Git, runner: Runner, timeout: nat, ghost stepRunner: Runner)
    requires git.Valid()
    modifies git
    ensures git.Valid() && |git.log| == |old(git.log)| + 1 && old(git.log) <= git.log
    ensures Steps(Since(old(git.log), git.log)) == []
    ensures RunThrough(Since(old(git.log), git.log), stepRunner, runner, timeout)
    ensures var last := git.log[|git.log| - 1]; last.call == AbortRebase && last.before == old(git.state)
    ensures old(git.now) <= git.now <= old(git.now) + timeout
    ensures OnlyTreeMoves(old(git.state), git.state) && git.state.refs == old(git.state.refs)
    ensures AbortsWorked(Since(old(git.log), git.log)) ==> !git.state.tree.rebasing
  {
    var aborted, done := Do(git, AbortRebase, timeout, runner);
  }

  /** The conflict report and the two calls behind it: the status was read, then the
      abort ran, and nothing moved in between. */
  ghost predicate ConflictRead(log: seq<Record>, files: seq<string>) {
    |log| >= 2 &&
    var status, abort := log[|log| - 2], log[|log| - 1];
    && status.call == Status(false) && abort.call == AbortRebase && abort.before == status.before
    && (status.outcome.Done? && (forall e :: e in status.before.tree.entries ==> GitEntry(e)) ==>
          files == UnmergedPaths(status.before.tree.entries))
    && (status.outcome == Killed ==> files == [])
  }

  /** What a failed rebase reports. */
  ghost predicate RebaseErrorFits(log: seq<Record>, ctx: Context, error: FinishError) {
    match error
    case RebaseConflict(branch, files) => branch == ctx.branch && ConflictRead(log, files)
    case Other(step, abortFailed) => step == RebaseStep && !abortFailed
    case _ => false
  }

  /** `abort_after_conflict`: the conflicted paths, read before the abort clears them. */
  method AbortAfterConflict(git: Git, runner: Runner, timeout: nat, ghost stepRunner: Runner)
    returns (files: seq<string>)
    requires git.Valid()
    modifies git
    ensures git.Valid() && |git.log| == |old(git.log)| + 2 && old(git.log) <= git.log
    ensures Steps(Since(old(git.log), git.log)) == []
    ensures RunThrough(Since(old(git.log), git.log), stepRunner, runner, timeout)
    ensures old(git.now) <= git.now <= old(git.now) + 2 * timeout
    ensures OnlyTreeMoves(old(git.state), git.state) && git.state.refs == old(git.state.refs)
    ensures AbortsWorked(Since(old(git.log), git.log)) ==> !git.state.tree.rebasing
    ensures ConflictRead(git.log, files) && git.log[|git.log| - 2].before == old(git.state)
  {
    var status, done := Do(git, Status(false), timeout, runner);
    ghost var entries, before := git.state.tree.entries, git.log;
    files := if status == Killed then [] else ParseUnmergedFiles(status.stdout);
    if status.Done? && forall e :: e in entries ==> GitEntry(e) {
      ConflictFilesAreUnmergedPaths(entries);
    }
    AbortTheRebase(git, runner, timeout, stepRunner);
    LogSplit(old(git.log), before, git.log, stepRunner, runner, timeout);
  }

  /** `rebase_branch`. */
  method RebaseBranch(git: Git, ctx: Context, runner: Runner, abortRunner: Runner) returns (r: FinishResult)
    requires git.Valid()
    modifies git
    ensures Stepped(git)
    ensures Accounted(old(git.log), git.log, RebaseStep, Some(FastForwardStep), ctx, runner, abortRunner, r)
    ensures abortRunner.Unbounded? ==> InTime(old(git.now), git.now, runner, 2 * ctx.timeout)
    ensures r.Ok? ==> InTime(old(git.now), git.now, runner, 0)
    ensures OnlyTreeMoves(old(git.state), git.state) && OnlyRefMoves(old(git.state), git.state, git.state.tree.branch)
    ensures AbortsWorked(Since(old(git.log), git.log)) ==> !git.state.tree.rebasing
    ensures r.Ok? ==>
              && ctx.baseBranch in git.state.refs && git.state.tree.branch in git.state.refs
              && Ancestor(old(git.state.refs)[ctx.baseBranch], git.state.refs[git.state.tree.branch])
    ensures r.Err? ==> RebaseErrorFits(git.log, ctx, r.error)
  {
    var outcome, done := Do(git, Rebase(ctx.baseBranch), ctx.timeout, runner);
    if outcome.Done? {
      r := Ok(());
      AccountedAlone(old(git.log), git.log, done, RebaseStep, Some(FastForwardStep), ctx, runner, abortRunner, r);
      return;
    }
    ghost var before := git.log;
    r := AbortAndReport(git, ctx, outcome, abortRunner, runner, done);
    LogSplit(old(git.log), before, git.log, runner, abortRunner, ctx.timeout);
    assert [done] + [] == [done];
    AccountedAlone(old(git.log), git.log, done, RebaseStep, Some(FastForwardStep), ctx, runner, abortRunner, r);
  }

  /** The abort after a rebase that was not done, and the error for it. */
  method AbortAndReport(git: Git, ctx: Context, outcome: Outcome, abortRunner: Runner, ghost runner: Runner,
                        ghost done: Record)
    returns (r: FinishResult)
    requires git.Valid() && !outcome.Done?
    requires done.call == Rebase(ctx.baseBranch) && done.outcome == outcome
    modifies git
    ensures git.Valid() && old(git.log) <= git.log
    ensures Steps(Since(old(git.log), git.log)) == []
    ensures RunThrough(Since(old(git.log), git.log), runner, abortRunner, ctx.timeout)
    ensures old(git.now) <= git.now <= old(git.now) + 2 * ctx.timeout
    ensures OnlyTreeMoves(old(git.state), git.state) && git.state.refs == old(git.state.refs)
    ensures AbortsWorked(Since(old(git.log), git.log)) ==> !git.state.tree.rebasing
    ensures r.Err? && RebaseErrorFits(git.log, ctx, r.error)
    ensures Ends(done, Some(FastForwardStep), ctx, r)
  {
    match outcome {
      case Failed(stdout, stderr) =>
        ConflictWords(stdout, stderr);
        if IsRebaseConflict(stdout, stderr) {
          var files := AbortAfterConflict(git, abortRunner, ctx.timeout, runner);
          return Err(RebaseConflict(ctx.branch, files));
        }
      case _ =>
    }
    AbortTheRebase(git, abortRunner, ctx.timeout, runner);
    return Err(Other(RebaseStep, false));
  }

  /** `fast_forward_base`. */
  method FastForwardBase(git: Git, ctx: Context, runner: Runner, ghost abortRunner: Runner) returns (r: FinishResult)
    requires git.Valid()
    modifies git
    ensures Stepped(git) && InTime(old(git.now), git.now, runner, 0)
    ensures Accounted(old(git.log), git.log, FastForwardStep, None, ctx, runner, abortRunner, r)
    ensures git.state.tree == old(git.state.tree) && git.state.root.merging == old(git.state.root.merging)
    ensures AbortsWorked(Since(old(git.log), git.log))
    ensures r.Ok? ==>
              && git.state.root.branch in old(git.state.refs) && ctx.branch in old(git.state.refs)
              && (ForwardedTo(old(git.state), git.state, ctx.branch) ||
                  (git.state.refs == old(git.state.refs)
                   && Ancestor(git.state.refs[ctx.branch], git.state.refs[git.state.root.branch])))
    ensures r.Err? ==> r.error == Other(FastForwardStep, false)
  {
    var merged, done := Do(git, FastForward(ctx.branch), ctx.timeout, runner);
    r := if merged.Done? then Ok(()) else Err(Other(FastForwardStep, false));
    AccountedAlone(old(git.log), git.log, done, FastForwardStep, None, ctx, runner, abortRunner, r);
  }

  /** The base branch is at the task branch, and has only moved forward. */
  ghost predicate Finished(s: GitState, t: GitState, ctx: Context) {
    && ctx.baseBranch in s.refs && ctx.baseBranch in t.refs && ctx.branch in t.refs
    && t.refs[ctx.baseBranch] == t.refs[ctx.branch]
    && Ancestor(s.refs[ctx.baseBranch], t.refs[ctx.baseBranch])
  }

  /** No operation is left half done that was not before. */
  ghost predicate NothingLeft(s: GitState, t: GitState) {
    (t.root.merging ==> s.root.merging) && (t.tree.rebasing ==> s.tree.rebasing)
  }

  /** What each error says about the checkouts and the calls made. */
  ghost predicate ErrorFits(s: GitState, t: GitState, log: seq<Record>, ctx: Context, error: FinishError) {
    match error
    case NotOnDefaultBranch(current, expected) => t == s && current == s.root.branch != expected == ctx.baseBranch
    case DirtyPrimaryWorktree(files) => t == s && files == ParsePorcelainFiles(Print(s.root.entries)) != []
    case RebaseConflict(branch, files) => branch == ctx.branch && ConflictRead(log, files)
    case Other(step, abortFailed) => if step == PullStep then PullErrorFits(log, t, error) else !abortFailed
  }

  /** `finish_task_with_abort_runner`.

      - Success in the task branch's own worktree means the base branch is at the
        rebased task branch, and has only moved forward.
      - When the abort side did what it was asked, no merge is left in the repo root
        and no rebase in the worktree that was not there before.
      - A conflict names the paths that were unmerged before the abort.
      - Under a deadline the whole finish is over by the deadline (or at once, when
        it has passed) plus the two calls an abort may take. */
  method FinishTaskWithAbortRunner(git: Git, ctx: Context, runner: Runner, abortRunner: Runner)
    returns (r: FinishResult)
    requires git.Valid()
    modifies git
    ensures git.Valid() && old(git.log) <= git.log
    ensures Accounted(old(git.log), git.log, BranchCheck, None, ctx, runner, abortRunner, r)
    ensures abortRunner.Unbounded? ==> InTime(old(git.now), git.now, runner, 2 * ctx.timeout)
    ensures r.Ok? && old(git.state.tree.branch) == ctx.branch ==> Finished(old(git.state), git.state, ctx)
    ensures AbortsWorked(Since(old(git.log), git.log)) ==> NothingLeft(old(git.state), git.state)
    ensures r.Err? ==> ErrorFits(old(git.state), git.state, git.log, ctx, r.error)
  {
    r := CheckPrimaryWorktree(git, ctx.baseBranch, runner, ctx, abortRunner);
    if r.Err? {
      AccountedError(old(git.log), git.log, BranchCheck, Some(RemoteCheck), None, ctx, runner, abortRunner, r);
      return;
    }
    ghost var before := git.log;
    r := PullRebaseAndForward(git, ctx, runner, abortRunner);
    AccountedThen(old(git.log), before, git.log, BranchCheck, RemoteCheck, None, ctx, runner, abortRunner, r);
  }

  /** The steps after the check. */
  method PullRebaseAndForward(git: Git, ctx: Context, runner: Runner, abortRunner: Runner) returns (r: FinishResult)
    requires git.Valid() && git.state.root.branch == ctx.baseBranch
    modifies git
    ensures git.Valid() && old(git.log) <= git.log
    ensures Accounted(old(git.log), git.log, RemoteCheck, None, ctx, runner, abortRunner, r)
    ensures abortRunner.Unbounded? ==> InTime(old(git.now), git.now, runner, 2 * ctx.timeout)
    ensures r.Ok? && old(git.state.tree.branch) == ctx.branch ==> Finished(old(git.state), git.state, ctx)
    ensures AbortsWorked(Since(old(git.log), git.log)) ==> NothingLeft(old(git.state), git.state)
    ensures r.Err? ==> !r.error.NotOnDefaultBranch? && !r.error.DirtyPrimaryWorktree?
    ensures r.Err? ==> ErrorFits(old(git.state), git.state, git.log, ctx, r.error)
  {
    r := PullBase(git, ctx.baseBranch, runner, abortRunner, ctx.timeout, ctx);
    if r.Err? {
      AccountedError(old(git.log), git.log, RemoteCheck, Some(RebaseStep), None, ctx, runner, abortRunner, r);
      ErrorFitsLater(old(git.state), git.state, git.log, ctx, r.error);
      return;
    }
    ghost var pulled, middle := git.state, git.log;
    r := RebaseAndForward(git, ctx, runner, abortRunner);
    AccountedThen(old(git.log), middle, git.log, RemoteCheck, RebaseStep, None, ctx, runner, abortRunner, r);
    if r.Err? {
      ErrorFitsLater(old(git.state), git.state, git.log, ctx, r.error);
    } else if pulled.tree.branch == ctx.branch {
      PulledThenForwarded(old(git.state), pulled, git.state, ctx);
    }
  }

  lemma ErrorFitsLater(s: GitState, t: GitState, log: seq<Record>, ctx: Context, error: FinishError)
    requires || error == Other(RemoteCheck, false) || PullErrorFits(log, t, error)
             || error == Other(FastForwardStep, false) || RebaseErrorFits(log, ctx, error)
    ensures ErrorFits(s, t, log, ctx, error)
    ensures !error.NotOnDefaultBranch? && !error.DirtyPrimaryWorktree?
  {
  }

  lemma PulledThenForwarded(s: GitState, pulled: GitState, t: GitState, ctx: Context)
    requires PullMoves(s, pulled, ctx.baseBranch) && Finished(pulled, t, ctx)
    ensures Finished(s, t, ctx)
  {
    AncestorTransitive(s.refs[ctx.baseBranch], pulled.refs[ctx.baseBranch], t.refs[ctx.baseBranch]);
  }

  /** The last two steps. */
  method RebaseAndForward(git: Git, ctx: Context, runner: Runner, abortRunner: Runner) returns (r: FinishResult)
    requires git.Valid() && git.state.root.branch == ctx.baseBranch
    modifies git
    ensures git.Valid() && old(git.log) <= git.log
    ensures Accounted(old(git.log), git.log, RebaseStep, None, ctx, runner, abortRunner, r)
    ensures abortRunner.Unbounded? ==> InTime(old(git.now), git.now, runner, 2 * ctx.timeout)
    ensures r.Ok? && old(git.state.tree.branch) == ctx.branch ==> Finished(old(git.state), git.state, ctx)
    ensures AbortsWorked(Since(old(git.log), git.log)) ==> !git.state.tree.rebasing
    ensures git.state.root.merging == old(git.state.root.merging)
    ensures r.Err? ==> r.error == Other(FastForwardStep, false) || RebaseErrorFits(git.log, ctx, r.error)
  {
    r := RebaseBranch(git, ctx, runner, abortRunner);
    if r.Err? {
      AccountedError(old(git.log), git.log, RebaseStep, Some(FastForwardStep), None, ctx, runner, abortRunner, r);
      return;
    }
    ghost var rebased, before, between := git.state, git.log, git.now;
    r := FastForwardBase(git, ctx, runner, abortRunner);
    InTimeThen(old(git.now), between, git.now, runner, 0);
    AccountedThen(old(git.log), before, git.log, RebaseStep, FastForwardStep, None, ctx, runner, abortRunner, r);
    if r.Ok? && rebased.tree.branch == ctx.branch {
      BaseReachesBranch(old(git.state), rebased, git.state, ctx);
    }
  }

  lemma BaseReachesBranch(s: GitState, rebased: GitState, t: GitState, ctx: Context)
    requires ctx.baseBranch == rebased.root.branch
    requires OnlyRefMoves(s, rebased, ctx.branch) && ctx.baseBranch in rebased.refs && ctx.branch in rebased.refs
    requires Ancestor(s.refs[ctx.baseBranch], rebased.refs[ctx.branch])
    requires ForwardedTo(rebased, t, ctx.branch) ||
             (t.refs == rebased.refs && Ancestor(t.refs[ctx.branch], t.refs[ctx.baseBranch]))
    ensures Finished(s, t, ctx)
  {
    if !ForwardedTo(rebased, t, ctx.branch) {
      AncestorAntisymmetric(s.refs[ctx.baseBranch], rebased.refs[ctx.branch]);
    }
  }
}
