/** Where a worktree forked from its base branch, and the commits listed from
    there on as the agent's own. */
module ForkPoint {
  import opened Prelude
  import opened Text
  import opened Trimming
  import opened GitWorld

  /** A repository as these queries see it: HEAD and the refs. */
  datatype Repo = Repo(head: Commit, refs: map<string, Commit>)

  datatype QueryError = GitFailed(message: string) | NoCommonAncestor(gitRef: string) | Unanswered

  /** `git merge-base HEAD <ref>`: a printed commit, an empty answer, or a failure. */
  datatype MergeBaseAnswer = Printed(commit: Commit) | Empty | Failure(message: string)

  /** `git merge-base --is-ancestor`: an exit code, if it ran to one. */
  datatype Probe = Exit(code: int) | NotRun

  /** How git answers the queries of one resolution. */
  datatype Answers = Answers(local: MergeBaseAnswer, origin: MergeBaseAnswer, probe: Probe)

  function OriginRef(base: string): string {
    "origin/" + base
  }

  ghost predicate CommonAncestor(c: Commit, a: Commit, b: Commit) {
    Ancestor(c, a) && Ancestor(c, b)
  }

  /** A merge base: a common ancestor with no other common ancestor above it. */
  ghost predicate Best(c: Commit, a: Commit, b: Commit) {
    CommonAncestor(c, a, b) && forall d :: CommonAncestor(d, a, b) && Ancestor(c, d) ==> d == c
  }

  /** A printed commit is a merge base of HEAD and the ref, one of several if there
      are several; an empty answer means there is none. A failure says nothing, of an
      existing ref neither. */
  ghost predicate MergeBaseLegal(repo: Repo, gitRef: string, answer: MergeBaseAnswer) {
    match answer
    case Printed(c) => gitRef in repo.refs && Best(c, repo.head, repo.refs[gitRef])
    case Empty => gitRef in repo.refs && forall c :: !CommonAncestor(c, repo.head, repo.refs[gitRef])
    case Failure(_) => true
  }

  /** The answers are true of the repository. */
  ghost predicate Legal(repo: Repo, base: string, a: Answers) {
    && MergeBaseLegal(repo, base, a.local) && MergeBaseLegal(repo, OriginRef(base), a.origin)
    && (a.local.Printed? && a.origin.Printed? ==>
          && (a.probe == Exit(0) ==> Ancestor(a.local.commit, a.origin.commit))
          && (a.probe == Exit(1) ==> !Ancestor(a.local.commit, a.origin.commit)))
  }

  /** `merge_base`. */
  function MergeBase(gitRef: string, answer: MergeBaseAnswer): (r: Result<Commit, QueryError>) {
    match answer
    case Printed(c) => Ok(c)
    case Empty => Err(NoCommonAncestor(gitRef))
    case Failure(message) => Err(GitFailed(message))
  }

  /** `is_ancestor`: an exit code other than 0 and 1 is no answer. */
  function IsAncestor(probe: Probe): Result<bool, QueryError> {
    if probe == Exit(0) then Ok(true) else if probe == Exit(1) then Ok(false) else Err(Unanswered)
  }

  /** `fork_point`. */
  function Fork(base: string, a: Answers): Result<Commit, QueryError> {
    var local := MergeBase(base, a.local);
    var origin := MergeBase(OriginRef(base), a.origin);
    if local.Ok? && origin.Ok? then
      if local.value == origin.value then local
      else
        match IsAncestor(a.probe)
        case Err(e) => Err(e)
        case Ok(true) => origin
        case Ok(false) => local
    else if local.Ok? then local
    else if origin.Ok? then origin
    else local
  }

  /** The commits `fork..HEAD` names. */
  ghost predicate Listed(repo: Repo, fork: Commit, c: Commit) {
    Ancestor(c, repo.head) && !Ancestor(c, fork)
  }

  /** Reachable from the base branch, as the repository or its origin has it. */
  ghost predicate OfBase(repo: Repo, base: string, c: Commit) {
    || (base in repo.refs && Ancestor(c, repo.refs[base]))
    || ("origin/" + base in repo.refs && Ancestor(c, repo.refs["origin/" + base]))
  }

  /** One fork point is behind the other, where there are two. */
  predicate InLine(a: Answers) {
    a.local.Printed? && a.origin.Printed? ==>
      Ancestor(a.local.commit, a.origin.commit) || Ancestor(a.origin.commit, a.local.commit)
  }

  /** There is no fork point exactly when neither ref resolves, with the local
      branch's error, or both do, differ, and git does not say which is nearer. Any
      other is an ancestor of HEAD and of a ref of the base branch: of two in line
      the one nearer HEAD, which lists just what both would, of two that have diverged
      the local one, else the only one. */
  lemma ForkIsNearest(repo: Repo, base: string, a: Answers)
    ensures Fork(base, a).Err? <==>
            || (!a.local.Printed? && !a.origin.Printed?)
            || (a.local.Printed? && a.origin.Printed? && a.local.commit != a.origin.commit
                && a.probe != Exit(0) && a.probe != Exit(1))
    ensures !a.local.Printed? && !a.origin.Printed? ==> Fork(base, a) == MergeBase(base, a.local)
    ensures Legal(repo, base, a) && Fork(base, a).Ok? ==>
              var fork := Fork(base, a).value;
              && Ancestor(fork, repo.head) && OfBase(repo, base, fork)
              && (a.local.Printed? && a.origin.Printed? ==>
                    var l, o := a.local.commit, a.origin.commit;
                    && fork == (if Ancestor(l, o) then o else l)
                    && (InLine(a) ==> forall c :: Listed(repo, fork, c) <==> Listed(repo, l, c) && Listed(repo, o, c)))
              && (a.local.Printed? != a.origin.Printed? ==>
                    fork == if a.local.Printed? then a.local.commit else a.origin.commit)
  {
    if Legal(repo, base, a) && a.local.Printed? && a.origin.Printed? {
      ListsOfTwo(repo, a.local.commit, a.origin.commit);
      ListsOfTwo(repo, a.origin.commit, a.local.commit);
    }
  }

  /** A fork point nearer HEAD lists no more. */
  lemma ListsOfTwo(repo: Repo, far: Commit, near: Commit)
    ensures Ancestor(far, near) ==> forall c :: Listed(repo, near, c) ==> Listed(repo, far, c)
  {
    if Ancestor(far, near) {
      forall c | Ancestor(c, far)
        ensures Ancestor(c, near)
      {
        AncestorTransitive(c, far, near);
      }
    }
  }

  /** Every common ancestor is behind a merge base. */
  lemma {:induction false} BestAbove(d: Commit, a: Commit, b: Commit) returns (g: Commit)
    requires CommonAncestor(d, a, b)
    ensures Best(g, a, b) && Ancestor(d, g)
    decreases Height(a) - Height(d)
  {
    if e :| CommonAncestor(e, a, b) && Ancestor(d, e) && e != d {
      AncestorHeight(d, e);
      AncestorHeight(e, a);
      g := BestAbove(e, a, b);
      AncestorTransitive(d, e, g);
    } else {
      g := d;
    }
  }

  /** A ref of the base branch that exists. */
  predicate BaseRef(repo: Repo, base: string, gitRef: string) {
    gitRef in repo.refs && (gitRef == base || gitRef == "origin/" + base)
  }

  /** Every merge base of HEAD and a ref of the base branch is behind the commit. */
  ghost predicate MergeBasesBehind(repo: Repo, base: string, fork: Commit) {
    forall gitRef, g ::
      BaseRef(repo, base, gitRef) && Best(g, repo.head, repo.refs[gitRef]) ==> Ancestor(g, fork)
  }

  /** No commit of the base branch is listed as the agent's. */
  ghost predicate NoBaseCommitListed(repo: Repo, base: string, fork: Commit) {
    forall c :: Listed(repo, fork, c) ==> !OfBase(repo, base, c)
  }

  /** No commit of the base branch, local or origin, is listed exactly when every merge
      base of HEAD and a ref of the base branch is behind the fork point, whichever
      refs git answered for. */
  lemma NoBaseCommitListedIff(repo: Repo, base: string, a: Answers)
    requires Fork(base, a).Ok?
    ensures NoBaseCommitListed(repo, base, Fork(base, a).value) <==> MergeBasesBehind(repo, base, Fork(base, a).value)
  {
    var fork := Fork(base, a).value;
    if MergeBasesBehind(repo, base, fork) {
      forall c | Ancestor(c, repo.head) && OfBase(repo, base, c)
        ensures Ancestor(c, fork)
      {
        var gitRef := if base in repo.refs && Ancestor(c, repo.refs[base]) then base else OriginRef(base);
        assert BaseRef(repo, base, gitRef);
        var g := BestAbove(c, repo.head, repo.refs[gitRef]);
        AncestorTransitive(c, g, fork);
      }
    }
    if gitRef, g :| BaseRef(repo, base, gitRef) && Best(g, repo.head, repo.refs[gitRef]) && !Ancestor(g, fork) {
      assert Listed(repo, fork, g) && OfBase(repo, base, g);
    }
  }

  /** Git answered for every ref of the base branch there is. */
  predicate RefsAnswered(repo: Repo, base: string, a: Answers) {
    && (base in repo.refs ==> !a.local.Failure?)
    && (OriginRef(base) in repo.refs ==> !a.origin.Failure?)
  }

  /** HEAD and a ref of the base branch have one merge base at most. */
  ghost predicate OneMergeBase(repo: Repo, base: string) {
    forall gitRef, g, h ::
      BaseRef(repo, base, gitRef) && Best(g, repo.head, repo.refs[gitRef]) && Best(h, repo.head, repo.refs[gitRef])
      ==> g == h
  }

  /** Where git answers for every ref there is, and no history is criss-crossed, no
      commit of the base branch is listed exactly when the fork points are in line. */
  lemma AnsweredRefsIff(repo: Repo, base: string, a: Answers)
    requires Legal(repo, base, a) && Fork(base, a).Ok?
    requires RefsAnswered(repo, base, a) && OneMergeBase(repo, base)
    ensures NoBaseCommitListed(repo, base, Fork(base, a).value) <==> InLine(a)
  {
    var fork := Fork(base, a).value;
    NoBaseCommitListedIff(repo, base, a);
    ForkIsNearest(repo, base, a);
    assert MergeBasesBehind(repo, base, fork) <==>
           && (a.local.Printed? ==> Ancestor(a.local.commit, fork))
           && (a.origin.Printed? ==> Ancestor(a.origin.commit, fork)) by {
      if a.local.Printed? {
        assert BaseRef(repo, base, base);
      }
      if a.origin.Printed? {
        assert BaseRef(repo, base, OriginRef(base));
      }
    }
  }

  /** A base branch that is not in line with its origin: HEAD merges both, neither
      fork point is behind the other, and the origin's commit is listed as the
      agent's. */
  lemma DivergedBaseIsListed(base: string)
    ensures exists repo, a, c ::
              && Legal(repo, base, a) && Fork(base, a).Ok?
              && Listed(repo, Fork(base, a).value, c) && OfBase(repo, base, c)
  {
    var l, o := Commit(1, []), Commit(2, []);
    var head := Commit(3, [l, o]);
    var repo := Repo(head, map[base := l, OriginRef(base) := o]);
    var a := Answers(Printed(l), Printed(o), Exit(1));
    assert OriginRef(base) != base by {
      assert |OriginRef(base)| > |base|;
    }
    assert head.parents[0] == l && head.parents[1] == o;
    assert Ancestor(l, head) && Ancestor(o, head);
    assert Best(l, head, l) && Best(o, head, o);
    assert Legal(repo, base, a);
    assert Listed(repo, Fork(base, a).value, o) && OfBase(repo, base, o);
  }

  /** A commit behind HEAD is its own one merge base with it. */
  lemma SelfBest(c: Commit, head: Commit)
    requires Ancestor(c, head)
    ensures forall g :: Best(g, head, c) <==> g == c
  {
    assert CommonAncestor(c, head, c);
    forall d | Ancestor(c, d) && Ancestor(d, c)
      ensures d == c
    {
      AncestorAntisymmetric(c, d);
    }
  }

  /** A call that fails on a ref that exists: its commits ahead of the local branch
      are listed as the agent's, though the only fork point is in line and nothing
      is criss-crossed. */
  lemma FailedCallListsTheBase(base: string)
    ensures exists repo, a, c ::
              && Legal(repo, base, a) && Fork(base, a).Ok? && InLine(a) && OneMergeBase(repo, base)
              && OriginRef(base) in repo.refs && a.origin.Failure?
              && Listed(repo, Fork(base, a).value, c) && OfBase(repo, base, c)
  {
    var l := Commit(1, []);
    var o := Commit(2, [l]);
    var head := Commit(3, [o]);
    var repo := Repo(head, map[base := l, OriginRef(base) := o]);
    var a := Answers(Printed(l), Failure("killed"), NotRun);
    assert |OriginRef(base)| > |base|;
    assert o.parents[0] == l && head.parents[0] == o;
    assert Ancestor(l, o) && Ancestor(o, head) && Ancestor(l, head);
    SelfBest(l, head);
    assert OneMergeBase(repo, base) by {
      SelfBest(o, head);
    }
    assert Legal(repo, base, a);
    assert Listed(repo, Fork(base, a).value, o) && OfBase(repo, base, o);
  }

  /** A criss-cross history: HEAD and the base branch have two merge bases, git prints
      one, and the other is listed as the agent's though every call was answered. */
  lemma CrissCrossListsTheBase(base: string)
    ensures exists repo, a, c ::
              && Legal(repo, base, a) && Fork(base, a).Ok? && InLine(a) && RefsAnswered(repo, base, a)
              && Listed(repo, Fork(base, a).value, c) && OfBase(repo, base, c)
  {
    var x, y := Commit(1, []), Commit(2, []);
    var head, tip := Commit(3, [x, y]), Commit(4, [x, y]);
    var repo := Repo(head, map[base := tip]);
    var a := Answers(Printed(x), Failure("no such ref"), NotRun);
    assert |OriginRef(base)| > |base|;
    assert head.parents[0] == x && head.parents[1] == y && tip.parents[0] == x && tip.parents[1] == y;
    assert Ancestor(x, head) && Ancestor(y, head) && Ancestor(x, tip) && Ancestor(y, tip);
    assert forall d :: Ancestor(d, x) ==> d == x;
    assert forall d :: Ancestor(d, y) ==> d == y;
    assert forall d :: Ancestor(d, head) ==> d == head || d == x || d == y;
    assert !Ancestor(head, tip);
    assert Best(x, head, tip);
    assert Legal(repo, base, a);
    assert Listed(repo, Fork(base, a).value, y) && OfBase(repo, base, y);
  }

  // ---------- the listing ----------

  datatype AgentCommit = AgentCommit(id: string, subject: string)

  function SpaceAt(s: string): (i: nat)
    ensures i <= |s| && Lacks(s[..i], ' ') && (i < |s| ==> s[i] == ' ')
  {
    if s == [] || s[0] == ' ' then 0
    else
      var i := SpaceAt(s[1..]);
      assert s[..1 + i] == [s[0]] + s[1..][..i];
      1 + i
  }

  /** `split_once(' ')`, the whole line when there is no space. */
  function ParseCommit(line: string): AgentCommit {
    var i := SpaceAt(line);
    if i < |line| then AgentCommit(line[..i], line[i + 1..]) else AgentCommit(line, [])
  }

  function ParseListing(lines: seq<string>): seq<AgentCommit> {
    if lines == [] then []
    else EntryOf(lines[0]) + ParseListing(lines[1..])
  }

  /** A line is cut at its first space; without one it is all id. */
  lemma ParseMeaning(line: string)
    ensures var c := ParseCommit(line);
            Lacks(c.id, ' ') && (line == c.id + [' '] + c.subject || (line == c.id && c.subject == ""))
  {
    var i := SpaceAt(line);
    assert i < |line| ==> line == line[..i] + [' '] + line[i + 1..];
    assert i == |line| ==> line[..i] == line;
  }

  /** The entries are those of the lines that are not blank, in order. */
  ghost function NotBlank(lines: seq<string>): seq<string> {
    if lines == [] then [] else (if Trim(lines[0]) == "" then [] else [lines[0]]) + NotBlank(lines[1..])
  }

  lemma {:induction false} BlankLinesSkipped(lines: seq<string>)
    ensures |ParseListing(lines)| == |NotBlank(lines)|
    ensures forall i :: 0 <= i < |NotBlank(lines)| ==> ParseListing(lines)[i] == ParseCommit(NotBlank(lines)[i])
  {
    if lines != [] {
      BlankLinesSkipped(lines[1..]);
    }
  }

  const MAX_LISTED: nat := 50

  /** `git log --max-count=<max> --format=%H %s <fork>..HEAD`. */
  type Log = (Commit, nat) -> Result<string, QueryError>

  /** The agent's commits: the log is asked for the newest ones after the fork point. */
  function Listing(base: string, a: Answers, log: Log): Result<seq<AgentCommit>, QueryError> {
    match Fork(base, a)
    case Err(e) => Err(e)
    case Ok(fork) =>
      match log(fork, MAX_LISTED)
      case Err(e) => Err(e)
      case Ok(text) => Ok(ParseListing(Lines(text)))
  }

  /** `git_branch_commits`. */
  method BranchCommits(base: string, a: Answers, log: Log) returns (r: Result<seq<AgentCommit>, QueryError>)
    ensures r == Listing(base, a, log)
  {
    var fork := Fork(base, a);
    if fork.Err? {
      return Err(fork.error);
    }
    var text := log(fork.value, MAX_LISTED);
    if text.Err? {
      return Err(text.error);
    }
    var commits := ReadLog(Lines(text.value));
    return Ok(commits);
  }

  /** The entry of one line, if it is not blank. */
  function EntryOf(line: string): seq<AgentCommit> {
    if Trim(line) == [] then [] else [ParseCommit(line)]
  }

  lemma ListingFrom(lines: seq<string>, i: nat)
    requires i < |lines|
    ensures ParseListing(lines[i..]) == EntryOf(lines[i]) + ParseListing(lines[i + 1..])
  {
    assert lines[i..][0] == lines[i] && lines[i..][1..] == lines[i + 1..];
  }

  method ReadLog(lines: seq<string>) returns (commits: seq<AgentCommit>)
    ensures commits == ParseListing(lines)
  {
    commits := [];
    assert lines[0..] == lines;
    for i := 0 to |lines|
      invariant commits + ParseListing(lines[i..]) == ParseListing(lines)
    {
      ListingFrom(lines, i);
      ghost var later := ParseListing(lines[i + 1..]);
      assert commits + (EntryOf(lines[i]) + later) == (commits + EntryOf(lines[i])) + later;
      commits := commits + EntryOf(lines[i]);
    }
    assert lines[|lines|..] == [];
  }

  /** A line of `git log --format=%H %s`. */
  function LogLine(c: AgentCommit): string {
    c.id + ([' '] + c.subject)
  }

  function PrintLog(commits: seq<AgentCommit>): string {
    if commits == [] then [] else LogLine(commits[0]) + ['\n'] + PrintLog(commits[1..])
  }

  /** A commit id is a word, a subject one line. */
  predicate GitCommit(c: AgentCommit) {
    c.id != [] && (forall x :: x in c.id ==> !IsWhite(x)) && Lacks(c.subject, '\n')
  }

  lemma {:induction false} SpaceAfter(id: string, rest: string)
    requires Lacks(id, ' ')
    ensures SpaceAt(id + ([' '] + rest)) == |id|
  {
    if id != [] {
      assert id[0] in id;
      assert (id + ([' '] + rest))[1..] == id[1..] + ([' '] + rest);
      SpaceAfter(id[1..], rest);
    }
  }

  lemma ParsesBack(c: AgentCommit)
    requires Lacks(c.id, ' ')
    ensures ParseCommit(LogLine(c)) == c
  {
    SpaceAfter(c.id, c.subject);
    assert LogLine(c)[..|c.id|] == c.id && LogLine(c)[|c.id| + 1..] == c.subject;
  }

  lemma PrintedNotBlank(c: AgentCommit)
    requires GitCommit(c)
    ensures Trim(LogLine(c)) != []
  {
    var line := LogLine(c);
    assert line[0] in c.id;
    assert TrimStart(line) == line;
    var b := TrimEndShape(line);
    assert TrimEnd(line) == [] ==> line == b;
    assert line[0] in line;
  }

  /** The subject as `lines` leaves it. */
  function Read(c: AgentCommit): AgentCommit {
    c.(subject := StripCR(c.subject))
  }

  lemma LineReadsAs(c: AgentCommit)
    requires GitCommit(c)
    ensures StripCR(LogLine(c)) == LogLine(Read(c)) && Lacks(LogLine(c), '\n')
  {
    var line := LogLine(c);
    assert forall x :: x in line ==> x in c.id || x == ' ' || x in c.subject;
    if c.subject != [] {
      assert line[|line| - 1] == c.subject[|c.subject| - 1];
    } else {
      assert line[|line| - 1] == ' ';
    }
  }

  /** Every commit git prints is read back, in order; a subject loses a final
      carriage return, and nothing else is lost. */
  lemma {:induction false} LogReadsBack(commits: seq<AgentCommit>)
    requires forall c :: c in commits ==> GitCommit(c)
    ensures |ParseListing(Lines(PrintLog(commits)))| == |commits|
    ensures forall i :: 0 <= i < |commits| ==> ParseListing(Lines(PrintLog(commits)))[i] == Read(commits[i])
  {
    if commits != [] {
      assert commits[0] in commits;
      LogReadsBack(commits[1..]);
      FirstReadsBack(commits[0], PrintLog(commits[1..]));
    }
  }

  lemma FirstReadsBack(c: AgentCommit, rest: string)
    requires GitCommit(c)
    ensures ParseListing(Lines(LogLine(c) + ['\n'] + rest)) == [Read(c)] + ParseListing(Lines(rest))
  {
    LineReadsAs(c);
    LinesFirst(LogLine(c), rest);
    ParsesBack(Read(c));
    PrintedNotBlank(Read(c));
    ListingCons(LogLine(Read(c)), Lines(rest));
  }

  lemma ListingCons(line: string, lines: seq<string>)
    requires Trim(line) != []
    ensures ParseListing([line] + lines) == [ParseCommit(line)] + ParseListing(lines)
  {
    assert ([line] + lines)[1..] == lines;
  }

  function PrintedAs(commits: seq<Commit>, name: Commit -> AgentCommit): seq<AgentCommit> {
    seq(|commits|, i requires 0 <= i < |commits| => name(commits[i]))
  }

  /** `commits` are commits of `fork..HEAD`, each once, and all of them when there are
      fewer than `max`. */
  ghost predicate Newest(repo: Repo, fork: Commit, max: nat, commits: seq<Commit>) {
    && |commits| <= max
    && (forall c :: c in commits ==> Listed(repo, fork, c))
    && (forall i, j :: 0 <= i < j < |commits| ==> commits[i] != commits[j])
    && (|commits| < max ==> forall c :: Listed(repo, fork, c) ==> c in commits)
  }

  /** The log prints commits of the range it is asked for, each under its name. */
  ghost predicate LogLegal(repo: Repo, log: Log, name: Commit -> AgentCommit) {
    forall fork, max :: log(fork, max).Ok? ==>
      exists commits :: Newest(repo, fork, max, commits) && log(fork, max) == Ok(PrintLog(PrintedAs(commits, name)))
  }

  /** `entries` are `commits` as they read back. */
  ghost predicate ReadsAs(entries: seq<AgentCommit>, commits: seq<Commit>, name: Commit -> AgentCommit) {
    |entries| == |commits| && forall i :: 0 <= i < |entries| ==> entries[i] == Read(name(commits[i]))
  }

  /** The entries are at most fifty commits of HEAD's own after the fork point, each
      once, all of them when there are fewer. With every merge base behind the fork
      point none is a commit of the base branch, and with fewer than fifty entries
      only then. */
  lemma EntriesAreTheAgents(repo: Repo, base: string, a: Answers, log: Log, name: Commit -> AgentCommit)
    requires Legal(repo, base, a) && LogLegal(repo, log, name)
    requires forall c :: GitCommit(name(c))
    requires Listing(base, a, log).Ok?
    ensures exists commits ::
              var fork := Fork(base, a).value;
              && Newest(repo, fork, 50, commits)
              && ReadsAs(Listing(base, a, log).value, commits, name)
              && (MergeBasesBehind(repo, base, fork) ==> NoneOfBase(repo, base, commits))
              && (|commits| < 50 && NoneOfBase(repo, base, commits) ==> MergeBasesBehind(repo, base, fork))
  {
    var fork := Fork(base, a).value;
    var commits :| Newest(repo, fork, MAX_LISTED, commits)
                   && log(fork, MAX_LISTED) == Ok(PrintLog(PrintedAs(commits, name)));
    LogReadsBack(PrintedAs(commits, name));
    NoBaseCommitListedIff(repo, base, a);
    assert ReadsAs(Listing(base, a, log).value, commits, name);
  }

  ghost predicate NoneOfBase(repo: Repo, base: string, commits: seq<Commit>) {
    forall c :: c in commits ==> !OfBase(repo, base, c)
  }
}
