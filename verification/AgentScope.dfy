/** The scope an agent runs in: the line typed into the pane when the machine offers
    one, and the launch line it hands on. */
module AgentScope {
  import opened Prelude
  import opened Text
  import opened ShellLexer
  import opened LaunchCommand

  /** Words with a blank between them. */
  function Spaced(words: seq<string>): string
    requires words != []
  {
    var n := |words| - 1;
    if n == 0 then words[0] else Spaced(words[..n]) + [' '] + words[n]
  }

  /** What runs the line in a scope of its own. */
  function ScopeWords(slice: string): seq<string> {
    ["systemd-run", "--user", "--scope", "--quiet", "--collect", "--slice=" + slice, "-p", "OOMPolicy=continue", "--"]
  }

  /** `exec ... sh -c "$1"`. */
  function Handing(words: seq<string>): string {
    "exec" + [' '] + (Spaced(words + ["sh", "-c"]) + [' '] + Quoted("1"))
  }

  const PROBE := "systemd-run --user --scope" + " --quiet -- true" + " >/dev/null 2>&1"

  /** The script: in a scope when the pane's shell can start one, bare otherwise. */
  function ScopeScript(slice: string): string {
    (IF + PROBE) + (THEN + (Handing(ScopeWords(slice)) + (ELSE + (Handing([]) + FI))))
  }

  /** `AgentScope::wrap`. */
  function Wrap(slice: string, command: string): string {
    "sh" + [' '] + ("-c" + [' '] + SingleQuoted(ScopeScript(slice)) + [' '] + ShellQuote("sh")
                    + ([' '] + ShellQuote(command)))
  }

  function SemicolonAt(s: string): (i: nat)
    ensures i <= |s| && Lacks(s[..i], ';') && (i < |s| ==> s[i] == ';')
  {
    if s == "" || s[0] == ';' then 0
    else
      var i := SemicolonAt(s[1..]);
      assert s[..1 + i] == [s[0]] + s[1..][..i];
      1 + i
  }

  /** The text before the first `;` and from there on. */
  function Cut(s: string): (string, string) {
    var i := SemicolonAt(s);
    (s[..i], s[i..])
  }

  /** What follows a prefix. */
  function Past(s: string, prefix: string): Option<string> {
    if prefix <= s then Some(s[|prefix|..]) else None
  }

  const IF := "if "
  const THEN := "; then "
  const ELSE := "; else "
  const FI := "; fi"

  /** How a shell reads `if ...; then ...; else ...; fi` with one command in each place:
      the condition and the two branches. */
  function IfParts(script: string): Option<(string, string, string)> {
    var (head, fromThen) := Cut(script);
    var probe, thens := Past(head, IF), Past(fromThen, THEN);
    if probe.None? || thens.None? then None
    else
      var (yes, fromElse) := Cut(thens.value);
      var elses := Past(fromElse, ELSE);
      if elses.None? then None
      else
        var (no, end) := Cut(elses.value);
        if end == FI then Some((probe.value, yes, no)) else None
  }

  lemma {:induction false} SemicolonAfter(s: string, rest: string)
    requires Lacks(s, ';') && rest != "" && rest[0] == ';'
    ensures SemicolonAt(s + rest) == |s|
  {
    if s == "" {
      assert s + rest == rest;
    } else {
      assert s[0] in s && forall c :: c in s[1..] ==> c in s;
      assert (s + rest)[1..] == s[1..] + rest;
      SemicolonAfter(s[1..], rest);
    }
  }

  /** `in_agent_scope`: the line typed into the pane. */
  function InAgentScope(command: string, scope: Option<string>): string {
    match scope
    case Some(slice) => Wrap(slice, command)
    case None => command
  }

  /** The line a shell reads in the end, when `scoped` is what the probe answers: the
      pane's own shell the typed one, or a `sh -c` what the script hands it. */
  function HandedOn(typed: string, scope: Option<string>, scoped: bool, env: map<string, string>): Option<string> {
    match scope
    case None => Some(typed)
    case Some(slice) =>
      var argv := CommandLine(typed, env);
      if argv.None? then None else ScriptHandsOn(argv.value, slice, scoped, env)
  }

  /** The line handed on by `sh -c script zero one`, when the script is an `if` on the
      probe and its branch runs a `sh -c` of one line. */
  function ScriptHandsOn(argv: seq<string>, slice: string, scoped: bool, env: map<string, string>): Option<string> {
    if |argv| != 5 || argv[0] != "sh" || argv[1] != "-c" then None
    else
      var parts := IfParts(argv[2]);
      if parts.None? || parts.value.0 != PROBE then None
      else
        var branch := if scoped then parts.value.1 else parts.value.2;
        OneMore(CommandLine(branch, env["0" := argv[3]]["1" := argv[4]]),
                ["exec"] + (if scoped then ScopeWords(slice) else []) + ["sh", "-c"])
  }

  /** The one argument after the words expected. */
  function OneMore(argv: Option<seq<string>>, words: seq<string>): Option<string> {
    if argv.None? || |argv.value| != |words| + 1 || argv.value[..|words|] != words then None
    else Some(argv.value[|words|])
  }

  lemma {:induction false} SpacedArgv(words: seq<string>, env: map<string, string>)
    requires words != [] && forall w :: w in words ==> !GetsQuotes(w)
    ensures Argv(Spaced(words), env) == Some(words)
  {
    var n := |words| - 1;
    assert words[n] in words;
    if n == 0 {
      PlainWord(words[0], env);
      assert words == [words[0]];
    } else {
      SpacedArgv(words[..n], env);
      AppendSafe(Spaced(words[..n]), words[..n], words[n], env);
      assert words == words[..n] + [words[n]];
    }
  }

  lemma {:induction false} SpacedLacks(words: seq<string>, c: char)
    requires words != [] && (forall w :: w in words ==> !GetsQuotes(w)) && !IsSafe(c) && c != ' '
    ensures Lacks(Spaced(words), c)
  {
    var n := |words| - 1;
    assert words[n] in words;
    if n > 0 {
      SpacedLacks(words[..n], c);
    }
  }

  lemma WordsAreSafe(slice: string)
    requires !GetsQuotes(slice)
    ensures forall w :: w in ScopeWords(slice) + ["sh", "-c"] ==> !GetsQuotes(w)
    ensures !GetsQuotes("sh") && !GetsQuotes("-c") && !GetsQuotes("exec")
  {
    assert AllSafe("--slice=");
    assert AllSafe("--slice=" + slice);
  }

  lemma AssignsNothing(s: string, n: nat)
    requires Lacks(s, '=')
    ensures !AssignsAt(s, n)
  {
    assert n < |s| ==> s[n] in s;
    assert n + 1 < |s| ==> s[n + 1] in s;
  }

  lemma NamesOfCommands()
    ensures !TakenAsSyntax("sh") && !TakenAsSyntax("exec")
  {
    assert "sh" !in RESERVED by {
      assert forall w :: w in RESERVED ==> w[0] != 's' || |w| > 2;
    }
    assert "exec" !in RESERVED by {
      assert forall w :: w in RESERVED ==> |w| == 4 ==> w[1] != 'x';
    }
    forall n: nat
      ensures !AssignsAt("sh", n) && !AssignsAt("exec", n)
    {
      AssignsNothing("sh", n);
      AssignsNothing("exec", n);
    }
  }

  lemma HandingArgv(exec: string, words: seq<string>, one: string, env: map<string, string>)
    requires words != [] && (forall w :: w in words ==> !GetsQuotes(w))
    requires !GetsQuotes(exec) && !TakenAsSyntax(exec) && IsParameter(one) && one in env
    ensures CommandLine(exec + [' '] + (Spaced(words) + [' '] + Quoted(one)), env) == Some([exec] + words + [env[one]])
  {
    SpacedArgv(words, env);
    AppendParameter(Spaced(words), words, one, env);
    CommandThenArguments(exec, Spaced(words) + [' '] + Quoted(one), words + [env[one]], env);
    assert [exec] + (words + [env[one]]) == [exec] + words + [env[one]];
  }

  lemma HandingLacks(words: seq<string>, c: char)
    requires (forall w :: w in words + ["sh", "-c"] ==> !GetsQuotes(w)) && (c == ';' || c == '\'')
    ensures Lacks(Handing(words), c)
  {
    SpacedLacks(words + ["sh", "-c"], c);
    assert Lacks("exec", c) && Lacks(Quoted("1"), c);
  }

  lemma PartsLack(slice: string, c: char)
    requires !GetsQuotes(slice) && (c == ';' || c == '\'')
    ensures Lacks(Handing(ScopeWords(slice)), c) && Lacks(Handing([]), c) && Lacks(PROBE, c)
  {
    WordsAreSafe(slice);
    HandingLacks(ScopeWords(slice), c);
    HandingLacks([], c);
    assert Lacks(PROBE, c);
  }

  lemma ScriptLacksQuote(slice: string)
    requires !GetsQuotes(slice)
    ensures Lacks(ScopeScript(slice), '\'')
  {
    PartsLack(slice, '\'');
    assert Lacks(IF, '\'') && Lacks(THEN, '\'') && Lacks(ELSE, '\'') && Lacks(FI, '\'');
  }

  lemma CutAfter(s: string, rest: string)
    requires Lacks(s, ';') && rest != "" && rest[0] == ';'
    ensures Cut(s + rest) == (s, rest)
  {
    SemicolonAfter(s, rest);
    assert (s + rest)[..|s|] == s && (s + rest)[|s|..] == rest;
  }

  lemma PastPrefix(prefix: string, rest: string)
    ensures Past(prefix + rest, prefix) == Some(rest)
  {
    assert (prefix + rest)[|prefix|..] == rest;
  }

  lemma Words()
    ensures Lacks(IF, ';') && THEN[0] == ELSE[0] == FI[0] == ';'
  {
  }

  lemma IfReads(probe: string, yes: string, no: string)
    requires Lacks(probe, ';') && Lacks(yes, ';') && Lacks(no, ';')
    ensures IfParts((IF + probe) + (THEN + (yes + (ELSE + (no + FI))))) == Some((probe, yes, no))
  {
    Words();
    CutAfter(IF + probe, THEN + (yes + (ELSE + (no + FI))));
    PastPrefix(IF, probe);
    PastPrefix(THEN, yes + (ELSE + (no + FI)));
    CutAfter(yes, ELSE + (no + FI));
    PastPrefix(ELSE, no + FI);
    CutAfter(no, FI);
  }

  /** The script's condition and branches are the ones meant. */
  lemma ScriptParts(slice: string)
    requires !GetsQuotes(slice)
    ensures IfParts(ScopeScript(slice)) == Some((PROBE, Handing(ScopeWords(slice)), Handing([])))
  {
    PartsLack(slice, ';');
    IfReads(PROBE, Handing(ScopeWords(slice)), Handing([]));
  }

  /** The words of the typed line, given by name. */
  lemma WrapWords(sh: string, option: string, script: string, command: string, env: map<string, string>)
    requires !GetsQuotes(sh) && !TakenAsSyntax(sh) && !GetsQuotes(option) && Lacks(script, '\'')
    ensures CommandLine(sh + [' '] + (option + [' '] + SingleQuoted(script) + [' '] + ShellQuote(sh)
                                      + ([' '] + ShellQuote(command))), env) == Some([sh, option, script, sh, command])
  {
    var flags := LaunchFlags("", Some(command));
    LaunchWords(sh, option, script, sh, flags, env);
    assert ConfigArg(flags) == [' '] + ShellQuote(command);
    assert [sh, option, script, sh] + [command] == [sh, option, script, sh, command];
  }

  lemma WrapArgv(slice: string, command: string, env: map<string, string>)
    requires !GetsQuotes(slice)
    ensures CommandLine(Wrap(slice, command), env) == Some(["sh", "-c", ScopeScript(slice), "sh", command])
  {
    ScriptLacksQuote(slice);
    WordsAreSafe(slice);
    NamesOfCommands();
    WrapWords("sh", "-c", ScopeScript(slice), command, env);
  }

  /** Whatever the line, and in a scope or not, the line a shell reads in the end is the
      line that was given. */
  lemma LineIsHandedOn(command: string, scope: Option<string>, scoped: bool, env: map<string, string>)
    requires scope.Some? ==> !GetsQuotes(scope.value)
    ensures HandedOn(InAgentScope(command, scope), scope, scoped, env) == Some(command)
  {
    if scope.Some? {
      WrapArgv(scope.value, command, env);
      WrappedHandsOn(scope.value, command, scoped, env);
    }
  }

  lemma WrappedHandsOn(slice: string, command: string, scoped: bool, env: map<string, string>)
    requires !GetsQuotes(slice)
    ensures ScriptHandsOn(["sh", "-c", ScopeScript(slice), "sh", command], slice, scoped, env) == Some(command)
  {
    var argv := ["sh", "-c", ScopeScript(slice), "sh", command];
    assert argv[2] == ScopeScript(slice) && argv[3] == "sh" && argv[4] == command;
    ScriptParts(slice);
    BranchHandsOn(slice, command, scoped, env["0" := "sh"]["1" := command]);
  }

  lemma BranchHandsOn(slice: string, command: string, scoped: bool, env: map<string, string>)
    requires !GetsQuotes(slice) && "1" in env && env["1"] == command
    ensures var words := if scoped then ScopeWords(slice) else [];
            OneMore(CommandLine(Handing(words), env), ["exec"] + words + ["sh", "-c"]) == Some(command)
  {
    WordsAreSafe(slice);
    NamesOfCommands();
    var words := if scoped then ScopeWords(slice) else [];
    HandingArgv("exec", words + ["sh", "-c"], "1", env);
    OneMoreIs(["exec"] + (words + ["sh", "-c"]), command);
    assert ["exec"] + (words + ["sh", "-c"]) == ["exec"] + words + ["sh", "-c"];
  }

  lemma OneMoreIs(words: seq<string>, last: string)
    ensures OneMore(Some(words + [last]), words) == Some(last)
  {
    assert (words + [last])[..|words|] == words;
  }

  /** In a scope the line is run by a `sh` below `systemd-run`, in the slice. */
  lemma ScopedCommandRuns(slice: string, command: string, env: map<string, string>)
    requires !GetsQuotes(slice) && "1" in env && env["1"] == command
    ensures CommandLine(Handing(ScopeWords(slice)), env) ==
            Some(["exec", "systemd-run", "--user", "--scope", "--quiet", "--collect", "--slice=" + slice,
                  "-p", "OOMPolicy=continue", "--", "sh", "-c", command])
  {
    WordsAreSafe(slice);
    NamesOfCommands();
    HandingArgv("exec", ScopeWords(slice) + ["sh", "-c"], "1", env);
    assert ["exec"] + (ScopeWords(slice) + ["sh", "-c"]) + [command] ==
           ["exec", "systemd-run", "--user", "--scope", "--quiet", "--collect", "--slice=" + slice,
            "-p", "OOMPolicy=continue", "--", "sh", "-c", command];
  }

  /** A launch from the line typed into the pane, in a scope or not. */
  lemma TypedLineStartsTheAgent(claude: string, agentName: string, model: string,
                                mcpConfig: Option<string>, resumed: bool,
                                scope: Option<string>, scoped: bool,
                                env: map<string, string>, files: map<string, string>)
    requires PlainFlags(agentName, model) && HomeSet(env) && (scope.Some? ==> !GetsQuotes(scope.value))
    ensures var typed := InAgentScope(AgentLine(claude, agentName, model, mcpConfig, resumed), scope);
            var read := HandedOn(typed, scope, scoped, env);
            read.Some? &&
            Starts(read.value,
                   AgentArgv(claude, agentName, model, mcpConfig, resumed, env["HOME"], PromptIn(files)), env, files)
  {
    LineIsHandedOn(AgentLine(claude, agentName, model, mcpConfig, resumed), scope, scoped, env);
    LaunchStartsTheAgent(claude, agentName, model, mcpConfig, resumed, env, files);
  }
}
