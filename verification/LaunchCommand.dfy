/** The command lines that start an agent (`shell_quote`, `prompt_launch_command`
    and the resume line), read back by the shell model. */
module LaunchCommand {
  import opened Prelude
  import opened Text
  import opened Trimming
  import opened ShellLexer
  import opened ShellScript

  // ---------- shell_quote ----------

  predicate IsSafe(c: char) {
    'a' <= c <= 'z' || 'A' <= c <= 'Z' || '0' <= c <= '9' || c in "_@%+=:,./-"
  }

  predicate AllSafe(s: string) {
    forall c :: c in s ==> IsSafe(c)
  }

  /** `s.replace('\'', r"'\''")`. */
  function EscapeQuotes(s: string): string {
    if s == "" then ""
    else (if s[0] == '\'' then "'\\''" else [s[0]]) + EscapeQuotes(s[1..])
  }

  function ShellQuote(s: string): string {
    if s != "" && AllSafe(s) then s else "'" + EscapeQuotes(s) + "'"
  }

  lemma {:induction false} EscapeGrows(s: string)
    ensures |EscapeQuotes(s)| >= |s|
  {
    if s != "" {
      EscapeGrows(s[1..]);
    }
  }

  /** A value is left without quotes exactly when it is not empty and holds nothing but
      letters, digits and ten more characters, none of which a shell takes for its own. */
  lemma LeftAloneIff(s: string)
    ensures ShellQuote(s) == s <==>
            s != "" && forall c :: c in s ==>
              || 'a' <= c <= 'z' || 'A' <= c <= 'Z' || '0' <= c <= '9'
              || c == '_' || c == '@' || c == '%' || c == '+' || c == '=' || c == ':' || c == ',' || c == '.'
              || c == '/' || c == '-'
  {
    EscapeGrows(s);
  }

  function Pieces(s: string, quoted: bool): (r: seq<Piece>)
    ensures |r| == |s| && forall i :: 0 <= i < |s| ==> r[i] == Char(s[i], quoted)
  {
    if s == "" then [] else [Char(s[0], quoted)] + Pieces(s[1..], quoted)
  }

  lemma {:induction false} PiecesExpand(s: string, quoted: bool, env: map<string, string>)
    ensures ExpandPieces(Pieces(s, quoted), env) == Some(s)
  {
    if s != "" {
      PiecesExpand(s[1..], quoted, env);
      assert [s[0]] + s[1..] == s;
    }
  }

  function AddAll(word: Partial, pieces: seq<Piece>): Partial {
    if pieces == [] then word else Some(Open(word).value + pieces)
  }

  lemma AddAllStep(word: Partial, first: Piece, rest: seq<Piece>)
    ensures AddAll(Add(word, first), rest) == AddAll(word, [first] + rest)
  {
    assert Open(word).value + [first] + rest == Open(word).value + ([first] + rest);
    if rest == [] {
      assert [first] + rest == [first];
    }
  }

  lemma SafeStep(s: string, word: Partial, done: seq<Token>)
    requires s != "" && IsSafe(s[0])
    ensures Lex(s, Plain, word, done) == Lex(s[1..], Plain, Add(word, Char(s[0], false)), done)
  {
    SafeIsPlain(s[0]);
  }

  lemma SafeIsPlain(c: char)
    requires IsSafe(c)
    ensures !IsSpecial(c) && !IsBlank(c) && c !in "$'\"\\&~#"
  {
  }

  /** Plain characters with no meaning to the shell go into the word as they are. */
  lemma {:induction false} SafeRun(s: string, rest: string, word: Partial, done: seq<Token>)
    requires AllSafe(s)
    ensures Lex(s + rest, Plain, word, done) == Lex(rest, Plain, AddAll(word, Pieces(s, false)), done)
  {
    if s == "" {
      assert s + rest == rest;
    } else {
      assert s[0] in s && forall c :: c in s[1..] ==> c in s;
      assert (s + rest)[0] == s[0] && (s + rest)[1..] == s[1..] + rest;
      SafeStep(s + rest, word, done);
      SafeRun(s[1..], rest, Add(word, Char(s[0], false)), done);
      AddAllStep(word, Char(s[0], false), Pieces(s[1..], false));
    }
  }

  /** A single-quoted run without quotes goes into the word verbatim. */
  lemma {:induction false} QuotedRun(s: string, rest: string, word: Partial, done: seq<Token>)
    requires Lacks(s, '\'')
    ensures Lex(s + rest, Single, word, done) == Lex(rest, Single, AddAll(word, Pieces(s, true)), done)
  {
    if s == "" {
      assert s + rest == rest;
    } else {
      assert s[0] in s && forall c :: c in s[1..] ==> c in s;
      assert (s + rest)[0] == s[0] && (s + rest)[1..] == s[1..] + rest;
      QuotedRun(s[1..], rest, Add(word, Char(s[0], true)), done);
      AddAllStep(word, Char(s[0], true), Pieces(s[1..], true));
    }
  }

  /** Closing, escaping and reopening puts one quote into the word. */
  lemma QuoteEscape(rest: string, word: Partial, done: seq<Token>)
    ensures Lex("'\\''" + rest, Single, word, done) == Lex(rest, Single, Add(word, Char('\'', true)), done)
  {
    var s := "'\\''" + rest;
    assert s[0] == '\'' && s[1..] == "\\''" + rest;
    var t := s[1..];
    assert t[0] == '\\' && t[1] == '\'' && t[2..] == "'" + rest;
    var u := t[2..];
    assert u[0] == '\'' && u[1..] == rest;
    assert Lex(s, Single, word, done) == Lex(t, Plain, word, done);
    assert Lex(t, Plain, word, done) == Lex(u, Plain, Add(word, Char('\'', true)), done);
  }

  lemma {:induction false} EscapedRun(s: string, rest: string, word: Partial, done: seq<Token>)
    ensures Lex(EscapeQuotes(s) + rest, Single, word, done) == Lex(rest, Single, AddAll(word, Pieces(s, true)), done)
  {
    if s == "" {
      assert EscapeQuotes(s) + rest == rest;
    } else {
      var tail := EscapeQuotes(s[1..]) + rest;
      EscapedRun(s[1..], rest, Add(word, Char(s[0], true)), done);
      AddAllStep(word, Char(s[0], true), Pieces(s[1..], true));
      if s[0] == '\'' {
        assert EscapeQuotes(s) + rest == "'\\''" + tail;
        QuoteEscape(tail, word, done);
      } else {
        var whole := EscapeQuotes(s) + rest;
        assert whole == [s[0]] + tail;
        assert whole[0] == s[0] && whole[1..] == tail;
      }
    }
  }

  /** Whether `shell_quote` puts quotes around a value. */
  predicate GetsQuotes(s: string) {
    s == "" || !AllSafe(s)
  }

  /** A quoted value, wherever a word may start, is one word holding the value. */
  lemma QuotedWord(s: string, rest: string, done: seq<Token>)
    ensures Lex(ShellQuote(s) + rest, Plain, None, done) ==
            Lex(rest, Plain, Some(Pieces(s, GetsQuotes(s))), done)
  {
    if s != "" && AllSafe(s) {
      SafeRun(s, rest, None, done);
      assert [] + Pieces(s, false) == Pieces(s, false);
    } else {
      var inner := EscapeQuotes(s) + ("'" + rest);
      var line := ShellQuote(s) + rest;
      assert line == "'" + inner;
      assert line[0] == '\'' && line[1..] == inner;
      EscapedRun(s, "'" + rest, Some([]), done);
      var close := "'" + rest;
      assert close[0] == '\'' && close[1..] == rest;
      assert [] + Pieces(s, true) == Pieces(s, true);
    }
  }

  lemma QuotedTokens(s: string)
    ensures Tokens(ShellQuote(s)) == Some([Word(Pieces(s, GetsQuotes(s)))])
  {
    QuotedWord(s, "", []);
    assert ShellQuote(s) + "" == ShellQuote(s);
    EndOfWord(Pieces(s, GetsQuotes(s)));
  }

  /** `shell_quote(s)` is one word, whose value is exactly `s`. */
  lemma ShellQuoteIsOneWord(s: string, env: map<string, string>)
    ensures Tokens(ShellQuote(s)).Some? && |Tokens(ShellQuote(s)).value| == 1
    ensures Argv(ShellQuote(s), env) == Some([s])
  {
    QuotedTokens(s);
    PiecesExpand(s, GetsQuotes(s), env);
    OneField(Pieces(s, GetsQuotes(s)), s, env);
  }

  lemma OneField(pieces: seq<Piece>, value: string, env: map<string, string>)
    requires ExpandPieces(pieces, env) == Some(value)
    ensures Fields([Word(pieces)], env) == Some([value])
  {
    assert [Word(pieces)][1..] == [];
    assert [value] + [] == [value];
  }

  // ---------- a value where a command may start ----------

  predicate IsName(s: string) {
    s != "" && IsNameStart(s[0]) && forall c :: c in s ==> IsNameStart(c) || IsDigit(c)
  }

  predicate AssignsAt(s: string, n: nat) {
    && 0 < n < |s| && IsName(s[..n])
    && (s[n] == '=' || (s[n] == '+' && n + 1 < |s| && s[n + 1] == '='))
  }

  /** The value, left without quotes, is a reserved word or an assignment. */
  ghost predicate TakenAsSyntax(s: string) {
    !GetsQuotes(s) && (s in RESERVED || exists n :: AssignsAt(s, n))
  }

  lemma {:induction false} BareTextOf(s: string)
    ensures BareText(Pieces(s, false)) == Some(s)
  {
    if s != "" {
      BareTextOf(s[1..]);
      assert [s[0]] + s[1..] == s;
    }
  }

  lemma {:induction false} NameRunOfPieces(s: string)
    ensures var n := NamePieces(Pieces(s, false));
            && (forall i :: 0 <= i < n ==> IsNameStart(s[i]) || IsDigit(s[i]))
            && (n < |s| ==> !IsNameStart(s[n]) && !IsDigit(s[n]))
  {
    if s != "" && (IsNameStart(s[0]) || IsDigit(s[0])) {
      NameRunOfPieces(s[1..]);
      var n := NamePieces(Pieces(s[1..], false));
      assert NamePieces(Pieces(s, false)) == n + 1;
      assert forall i :: 0 < i < |s| ==> s[i] == s[1..][i - 1];
    }
  }

  lemma AssignmentOf(s: string)
    ensures IsAssignment(Pieces(s, false)) <==> exists n :: AssignsAt(s, n)
  {
    var n := NamePieces(Pieces(s, false));
    NameRunOfPieces(s);
    if IsAssignment(Pieces(s, false)) {
      assert AssignsAt(s, n);
    }
    if m :| AssignsAt(s, m) {
      AssignsWhereTheNameEnds(s, m, n);
    }
  }

  lemma AssignsWhereTheNameEnds(s: string, m: nat, n: nat)
    requires AssignsAt(s, m) && n <= |s|
    requires forall i :: 0 <= i < n ==> IsNameStart(s[i]) || IsDigit(s[i])
    requires n < |s| ==> !IsNameStart(s[n]) && !IsDigit(s[n])
    ensures m == n && s[0] == s[..n][0]
  {
    assert forall i :: 0 <= i < m ==> s[..m][i] in s[..m];
    assert !(m < n);
    assert !(n < m);
  }

  /** A quoted value runs as the command it names exactly when it is not taken for
      something else. */
  lemma NamesCommandIff(s: string)
    ensures NamesCommand(Pieces(s, GetsQuotes(s))) <==> !TakenAsSyntax(s)
  {
    if !GetsQuotes(s) {
      BareTextOf(s);
      AssignmentOf(s);
    }
  }

  lemma CommandLineAppend(a: string, b: string, pieces: seq<Piece>, env: map<string, string>)
    requires Tokens(a) == Some([Word(pieces)]) && Tokens(b).Some?
    ensures CommandLine(a + [' '] + b, env) == if NamesCommand(pieces) then Argv(a + [' '] + b, env) else None
  {
    TokensAppend(a, b);
    assert ([Word(pieces)] + Tokens(b).value)[0] == Word(pieces);
  }

  // ---------- the launch lines ----------

  /** Flags spliced in as they are, and the one raw path that needs quoting. */
  datatype LaunchFlags = LaunchFlags(base: string, mcpConfig: Option<string>)

  function Inline(flags: LaunchFlags): string {
    flags.base + InlineOption(flags)
  }

  function InlineOption(flags: LaunchFlags): string {
    if flags.mcpConfig.Some? then [' '] + MCP_CONFIG + [' '] + ShellQuote(flags.mcpConfig.value) else ""
  }

  const MCP_CONFIG := "--mcp-config"

  /** `"$name"`. */
  function Quoted(name: string): string {
    "\"$" + name + "\""
  }

  function ConfigFlag(flags: LaunchFlags): string {
    if flags.mcpConfig.Some? then [' '] + MCP_CONFIG + [' '] + Quoted("1") else ""
  }

  function ConfigArg(flags: LaunchFlags): string {
    match flags.mcpConfig
    case Some(path) => [' '] + ShellQuote(path)
    case None => ""
  }

  const PROMPT_FILE := ".claude-prompt"

  /** `prompt=$(cat .claude-prompt)`. */
  function ReadPrompt(): string {
    Assigning("prompt", "cat" + [' '] + PROMPT_FILE)
  }

  function Assigning(name: string, text: string): string {
    name + ['='] + ("$(" + text + ")")
  }

  function RemovePrompt(): string {
    "rm" + [' '] + "-f" + [' '] + PROMPT_FILE
  }

  /** The command the script runs. */
  function ScriptCommand(flags: LaunchFlags, extra: string): string {
    Quoted("0") + [' '] + ((flags.base + extra) + ConfigFlag(flags) + [' '] + "--" + [' '] + Quoted("prompt"))
  }

  /** The script `bash -c` is given. */
  function Body(flags: LaunchFlags, extra: string): string {
    ReadPrompt() + [' '] + ("&&" + [' '] + (RemovePrompt() + [' '] + ("&&" + [' '] + ScriptCommand(flags, extra))))
  }

  function SingleQuoted(s: string): string {
    "'" + s + "'"
  }

  /** `prompt_launch_command_with`: `claude` is already one shell word. */
  function PromptLaunchCommandWith(claude: string, flags: LaunchFlags, extra: string): string {
    "bash" + [' '] + ("-c" + [' '] + SingleQuoted(Body(flags, extra)) + [' '] + claude + ConfigArg(flags))
  }

  /** The resume line without a message. */
  function ResumeCommand(claude: string, flags: LaunchFlags): string {
    claude + [' '] + (Inline(flags) + [' '] + "--continue")
  }

  const PLUGIN_DIR := ".claude/plugins/local/dispatch"
  const STATUSLINE_SETTINGS := ".claude/dispatch-statusline.json"

  function HomePath(path: string): string {
    ['~', '/'] + path
  }

  /** The fixed flags of every task agent: `DISPATCH_PLUGIN_DIR`, the session name
      and the model. */
  function BaseFlags(agentName: string, model: string): string {
    "--plugin-dir" + [' '] + HomePath(PLUGIN_DIR) + [' '] + "--settings" + [' '] + HomePath(STATUSLINE_SETTINGS)
    + [' '] + "--name" + [' '] + agentName + [' '] + "--model" + [' '] + model
  }

  /** `agent_launch_flags`. */
  function AgentFlags(agentName: string, model: string, mcpConfig: Option<string>): LaunchFlags {
    LaunchFlags(BaseFlags(agentName, model), mcpConfig)
  }

  // ---------- a line grows word by word ----------

  lemma AppendSafe(line: string, argv: seq<string>, word: string, env: map<string, string>)
    requires Argv(line, env) == Some(argv) && word != "" && AllSafe(word)
    ensures Argv(line + [' '] + word, env) == Some(argv + [word])
  {
    PlainWord(word, env);
    ArgvAppend(line, word, env);
  }

  lemma AppendQuoted(line: string, argv: seq<string>, value: string, env: map<string, string>)
    requires Argv(line, env) == Some(argv)
    ensures Argv(line + [' '] + ShellQuote(value), env) == Some(argv + [value])
  {
    ShellQuoteIsOneWord(value, env);
    ArgvAppend(line, ShellQuote(value), env);
  }

  lemma AppendSingleQuoted(line: string, argv: seq<string>, value: string, env: map<string, string>)
    requires Argv(line, env) == Some(argv) && Lacks(value, '\'')
    ensures Argv(line + [' '] + SingleQuoted(value), env) == Some(argv + [value])
  {
    SingleQuotedWord(value, env);
    ArgvAppend(line, SingleQuoted(value), env);
  }

  lemma AppendParameter(line: string, argv: seq<string>, name: string, env: map<string, string>)
    requires Argv(line, env) == Some(argv) && IsParameter(name) && name in env
    ensures Argv(line + [' '] + Quoted(name), env) == Some(argv + [env[name]])
  {
    ParameterField(name, env);
    ArgvAppend(line, Quoted(name), env);
  }

  predicate IsParameter(name: string) {
    && name != "" && (IsDigit(name[0]) ==> |name| == 1)
    && forall c :: c in name ==> IsNameStart(c) || IsDigit(c)
  }

  lemma PlainWord(s: string, env: map<string, string>)
    requires s != "" && AllSafe(s)
    ensures Argv(s, env) == Some([s])
  {
    ShellQuoteIsOneWord(s, env);
  }

  lemma EndOfWord(pieces: seq<Piece>)
    ensures Lex("", Plain, Some(pieces), []) == Some([Word(pieces)])
  {
    assert [] + [Word(pieces)] == [Word(pieces)];
  }

  /** A single-quoted text without quotes is one word. */
  lemma SingleQuotedWord(s: string, env: map<string, string>)
    requires Lacks(s, '\'')
    ensures Argv(SingleQuoted(s), env) == Some([s])
  {
    var line, close := SingleQuoted(s), "'";
    assert line[0] == '\'' && line[1..] == s + close;
    assert close[0] == '\'' && close[1..] == "";
    QuotedRun(s, close, Some([]), []);
    assert [] + Pieces(s, true) == Pieces(s, true);
    assert AddAll(Some([]), Pieces(s, true)) == Some(Pieces(s, true));
    EndOfWord(Pieces(s, true));
    PiecesExpand(s, true, env);
    OneField(Pieces(s, true), s, env);
  }

  lemma BodyLacksQuote(flags: LaunchFlags, extra: string)
    requires Lacks(flags.base, '\'') && Lacks(extra, '\'')
    ensures Lacks(Body(flags, extra), '\'')
  {
    assert Lacks("prompt", '\'') && Lacks("$(", '\'') && Lacks("cat", '\'')
           && Lacks(PROMPT_FILE, '\'') && Lacks(")", '\'');
    assert Lacks(ReadPrompt(), '\'');
    assert Lacks("&&", '\'') && Lacks("rm", '\'') && Lacks("-f", '\'');
    assert Lacks(RemovePrompt(), '\'');
    assert Lacks(MCP_CONFIG, '\'') && Lacks("--", '\'');
    assert Lacks(Quoted("0"), '\'') && Lacks(Quoted("1"), '\'') && Lacks(Quoted("prompt"), '\'');
    assert Lacks(ScriptCommand(flags, extra), '\'');
  }

  /** The line typed into the pane runs bash with the script as one word and the
      raw values, whatever characters they hold, as `$0` and `$1`. */
  lemma LaunchLinePassesRawValues(claude: string, flags: LaunchFlags, extra: string, env: map<string, string>)
    requires Lacks(flags.base, '\'') && Lacks(extra, '\'')
    ensures CommandLine(PromptLaunchCommandWith(ShellQuote(claude), flags, extra), env) ==
            Some(["bash", "-c", Body(flags, extra), claude]
                 + (if flags.mcpConfig.Some? then [flags.mcpConfig.value] else []))
  {
    BodyLacksQuote(flags, extra);
    BashNamesCommand();
    LaunchWords("bash", "-c", Body(flags, extra), claude, flags, env);
  }

  lemma BashNamesCommand()
    ensures AllSafe("bash") && !TakenAsSyntax("bash") && AllSafe("cat") && !TakenAsSyntax("cat")
    ensures AllSafe("rm") && !TakenAsSyntax("rm")
  {
    assert "bash"[0] == 'b' && "cat"[1] == 'a' && "rm"[0] == 'r';
    assert forall w :: w in RESERVED ==> w != "bash" && w != "cat" && w != "rm" by {
      assert forall w :: w in RESERVED ==> w[0] != 'b' && w[0] != 'r' && (w[0] == 'c' ==> |w| > 3);
    }
  }

  lemma LaunchWords(bash: string, option: string, body: string, claude: string,
                    flags: LaunchFlags, env: map<string, string>)
    requires bash != "" && AllSafe(bash) && !TakenAsSyntax(bash) && option != "" && AllSafe(option) && Lacks(body, '\'')
    ensures CommandLine(bash + [' '] + (option + [' '] + SingleQuoted(body) + [' '] + ShellQuote(claude)
                                        + ConfigArg(flags)), env) ==
            Some([bash, option, body, claude] + (if flags.mcpConfig.Some? then [flags.mcpConfig.value] else []))
  {
    var rest := option + [' '] + SingleQuoted(body) + [' '] + ShellQuote(claude) + ConfigArg(flags);
    LaunchArguments(option, body, claude, flags, env);
    var more := if flags.mcpConfig.Some? then [flags.mcpConfig.value] else [];
    CommandThenArguments(bash, rest, [option, body, claude] + more, env);
    assert ShellQuote(bash) == bash;
    assert [bash] + ([option, body, claude] + more) == [bash, option, body, claude] + more;
  }

  lemma LaunchArguments(option: string, body: string, claude: string, flags: LaunchFlags, env: map<string, string>)
    requires option != "" && AllSafe(option) && Lacks(body, '\'')
    ensures Argv(option + [' '] + SingleQuoted(body) + [' '] + ShellQuote(claude) + ConfigArg(flags), env) ==
            Some([option, body, claude] + (if flags.mcpConfig.Some? then [flags.mcpConfig.value] else []))
  {
    PlainWord(option, env);
    AppendSingleQuoted(option, [option], body, env);
    var line := option + [' '] + SingleQuoted(body);
    AppendQuoted(line, [option] + [body], claude, env);
    line := line + [' '] + ShellQuote(claude);
    var argv := [option, body, claude];
    assert [option] + [body] + [claude] == argv;
    match flags.mcpConfig
    case Some(path) =>
      AppendQuoted(line, argv, path, env);
      assert line + [' '] + ShellQuote(path) == line + ConfigArg(flags);
    case None =>
      assert line + "" == line && argv + [] == argv;
  }

  /** A quoted value followed by arguments: a command with that name and those
      arguments, or nothing the model can run. */
  lemma CommandThenArguments(value: string, rest: string, argv: seq<string>, env: map<string, string>)
    requires Argv(rest, env) == Some(argv)
    ensures CommandLine(ShellQuote(value) + [' '] + rest, env) ==
            if TakenAsSyntax(value) then None else Some([value] + argv)
  {
    QuotedTokens(value);
    ShellQuoteIsOneWord(value, env);
    ArgvAppend(ShellQuote(value), rest, env);
    CommandLineAppend(ShellQuote(value), rest, Pieces(value, GetsQuotes(value)), env);
    NamesCommandIff(value);
  }

  // ---------- what the script runs ----------

  lemma SafeTokens(s: string)
    requires s != "" && AllSafe(s)
    ensures Tokens(s) == Some([Word(Pieces(s, false))])
  {
    SafeRun(s, "", None, []);
    assert s + "" == s && [] + Pieces(s, false) == Pieces(s, false);
    EndOfWord(Pieces(s, false));
  }

  lemma {:induction false} NameRunWhole(name: string, rest: string)
    requires forall c :: c in name ==> IsNameStart(c) || IsDigit(c)
    requires rest != "" && !IsNameStart(rest[0]) && !IsDigit(rest[0])
    ensures NameRun(name + rest) == |name|
  {
    if name == "" {
      assert name + rest == rest;
    } else {
      assert name[0] in name && forall c :: c in name[1..] ==> c in name;
      NameRunWhole(name[1..], rest);
      assert (name + rest)[1..] == name[1..] + rest;
    }
  }

  /** A parameter in double quotes is a word of its own. */
  lemma QuotedParameter(name: string)
    requires IsParameter(name)
    ensures Tokens(Quoted(name)) == Some([Word([Param(name, true)])])
  {
    var line, close := Quoted(name), "\"";
    var inner := "$" + name + close;
    assert line[0] == '"' && line[1..] == inner;
    assert inner[0] == '$' && inner[1..] == name + close;
    assert name[0] in name;
    NameRunWhole(name, close);
    assert inner[1] == name[0];
    assert ParamLength(inner[1..]) == |name|;
    assert inner[1..1 + |name|] == name && inner[1 + |name|..] == close;
    assert close[0] == '"' && close[1..] == "";
    var pieces := [Param(name, true)];
    assert Expansion(inner, true) == Some((Param(name, true), 1 + |name|));
    assert [] + pieces == pieces;
    assert Lex(line, Plain, None, []) == Lex(inner, Double, Some([]), []);
    assert Lex(inner, Double, Some([]), []) == Lex(close, Double, Some(pieces), []);
    assert Lex(close, Double, Some(pieces), []) == Lex("", Plain, Some(pieces), []);
    EndOfWord(pieces);
  }

  lemma ParameterField(name: string, env: map<string, string>)
    requires IsParameter(name) && name in env
    ensures Argv(Quoted(name), env) == Some([env[name]])
  {
    QuotedParameter(name);
    var pieces := [Param(name, true)];
    assert pieces[1..] == [];
    assert env[name] + "" == env[name];
    OneField(pieces, env[name], env);
  }

  /** The command hands the raw values on: bash runs the binary with the flags,
      the config path and, behind `--`, the prompt, each as one argument. */
  lemma ScriptCommandArguments(flags: LaunchFlags, extra: string, env: map<string, string>)
    requires Argv(flags.base + extra, env).Some?
    requires "0" in env && "prompt" in env && (flags.mcpConfig.Some? ==> "1" in env)
    ensures CommandLine(ScriptCommand(flags, extra), env) ==
            Some([env["0"]] + (Argv(flags.base + extra, env).value
                 + (if flags.mcpConfig.Some? then [MCP_CONFIG, env["1"]] else [])
                 + ["--", env["prompt"]]))
  {
    CommandWords(flags.base + extra, MCP_CONFIG, "1", flags.mcpConfig.Some?, "--", "prompt", env);
    var rest := (flags.base + extra) + ConfigFlag(flags) + [' '] + "--" + [' '] + Quoted("prompt");
    ParameterThenArguments("0", rest, env);
  }

  /** A quoted parameter names the command, whatever its value. */
  lemma ParameterThenArguments(name: string, rest: string, env: map<string, string>)
    requires IsParameter(name) && name in env && Argv(rest, env).Some?
    ensures CommandLine(Quoted(name) + [' '] + rest, env) == Some([env[name]] + Argv(rest, env).value)
  {
    QuotedParameter(name);
    ParameterField(name, env);
    ArgvAppend(Quoted(name), rest, env);
    CommandLineAppend(Quoted(name), rest, [Param(name, true)], env);
  }

  lemma CommandWords(given: string, flag: string, one: string, withConfig: bool, dashes: string, prompt: string,
                     env: map<string, string>)
    requires IsParameter(one) && IsParameter(prompt) && prompt in env
    requires withConfig ==> one in env
    requires flag != "" && AllSafe(flag) && dashes != "" && AllSafe(dashes) && Argv(given, env).Some?
    ensures var config := if withConfig then [' '] + flag + [' '] + Quoted(one) else "";
            Argv(given + config + [' '] + dashes + [' '] + Quoted(prompt), env) ==
            Some(Argv(given, env).value + (if withConfig then [flag, env[one]] else []) + [dashes, env[prompt]])
  {
    var argv := Argv(given, env).value;
    var config := if withConfig then [' '] + flag + [' '] + Quoted(one) else "";
    var more := if withConfig then [flag, env[one]] else [];
    if withConfig {
      AppendSafe(given, argv, flag, env);
      AppendParameter(given + [' '] + flag, argv + [flag], one, env);
      assert given + config == given + [' '] + flag + [' '] + Quoted(one);
      assert argv + [flag] + [env[one]] == argv + more;
    } else {
      assert given + config == given && argv + more == argv;
    }
    AppendSafe(given + config, argv + more, dashes, env);
    AppendParameter(given + config + [' '] + dashes, argv + more + [dashes], prompt, env);
    assert argv + more + [dashes] + [env[prompt]] == argv + more + [dashes, env[prompt]];
  }

  predicate PlainText(s: string) {
    forall c :: c in s ==> IsSafe(c) || c == ' '
  }

  lemma {:induction false} CloseAfter(s: string, rest: string)
    requires PlainText(s)
    ensures CloseAt(s + [')'] + rest) == |s|
  {
    if s != "" {
      assert s[0] in s && forall c :: c in s[1..] ==> c in s;
      CloseAfter(s[1..], rest);
      assert (s + [')'] + rest)[1..] == s[1..] + [')'] + rest;
    }
  }

  function AssignWord(name: string, text: string): Token {
    Word(Pieces(name, false) + [Char('=', false), Command(text, false)])
  }

  /** An assignment of a command substitution is one word. */
  lemma AssigningTokens(name: string, text: string)
    requires name != "" && AllSafe(name) && PlainText(text)
    ensures Tokens(Assigning(name, text)) == Some([AssignWord(name, text)])
  {
    var prefix := name + ['='];
    var pieces := Pieces(prefix, false);
    assert pieces + [Command(text, false)] == Pieces(name, false) + [Char('=', false), Command(text, false)];
    SubstitutionTokens(text, pieces);
    SafeRun(prefix, "$(" + text + ")", None, []);
    assert [] + pieces == pieces;
  }

  lemma SubstitutionTokens(text: string, pieces: seq<Piece>)
    requires PlainText(text)
    ensures Lex("$(" + text + ")", Plain, Some(pieces), []) == Some([Word(pieces + [Command(text, false)])])
  {
    var sub := "$(" + text + ")";
    CloseAfter(text, "");
    assert sub[0] == '$' && sub[1] == '(';
    assert sub[2..] == text + [')'] + "";
    assert sub[2..2 + |text|] == text && sub[|text| + 3..] == "";
    assert Expansion(sub, false) == Some((Command(text, false), |sub|));
    EndOfWord(pieces + [Command(text, false)]);
  }

  lemma AndToken()
    ensures Tokens("&&") == Some([And])
  {
    assert "&&"[2..] == "";
    assert [] + [And] == [And];
  }

  lemma JoinTokens(a: string, b: string, x: seq<Token>, y: seq<Token>)
    requires Tokens(a) == Some(x) && Tokens(b) == Some(y)
    ensures Tokens(a + [' '] + b) == Some(x + y)
  {
    TokensAppend(a, b);
  }

  function RemoveWords(remove: string, force: string, file: string): seq<Token> {
    [Word(Pieces(remove, false)), Word(Pieces(force, false)), Word(Pieces(file, false))]
  }

  lemma RemoveTokens(remove: string, force: string, file: string)
    requires !GetsQuotes(remove) && !GetsQuotes(force) && !GetsQuotes(file)
    ensures Tokens(remove + [' '] + force + [' '] + file) == Some(RemoveWords(remove, force, file))
  {
    SafeTokens(remove);
    SafeTokens(force);
    SafeTokens(file);
    JoinTokens(remove, force, [Word(Pieces(remove, false))], [Word(Pieces(force, false))]);
    JoinTokens(remove + [' '] + force, file,
               [Word(Pieces(remove, false))] + [Word(Pieces(force, false))], [Word(Pieces(file, false))]);
    assert [Word(Pieces(remove, false))] + [Word(Pieces(force, false))] + [Word(Pieces(file, false))] ==
           RemoveWords(remove, force, file);
  }

  /** The script's tokens: two steps, each behind an `&&`, and the command. */
  lemma ScriptTokens(read: string, also: string, removal: string, command: string,
                     x: seq<Token>, y: seq<Token>, z: seq<Token>)
    requires Tokens(read) == Some(x) && Tokens(also) == Some([And])
    requires Tokens(removal) == Some(y) && Tokens(command) == Some(z)
    ensures Tokens(read + [' '] + (also + [' '] + (removal + [' '] + (also + [' '] + command))))
            == Some(x + ([And] + (y + ([And] + z))))
  {
    JoinTokens(also, command, [And], z);
    JoinTokens(removal, also + [' '] + command, y, [And] + z);
    JoinTokens(also, removal + [' '] + (also + [' '] + command), [And], y + ([And] + z));
    JoinTokens(read, also + [' '] + (removal + [' '] + (also + [' '] + command)), x, [And] + (y + ([And] + z)));
  }

  // ---------- what each step does ----------

  lemma NameStep(c: char, rest: seq<Piece>)
    requires IsNameStart(c) || IsDigit(c)
    ensures NamePieces([Char(c, false)] + rest) == 1 + NamePieces(rest)
    ensures NameOf([Char(c, false)] + rest) == [c] + NameOf(rest)
  {
    assert ([Char(c, false)] + rest)[1..] == rest;
  }

  lemma GroupPieces(first: Piece, a: seq<Piece>, b: seq<Piece>)
    ensures [first] + a + b == [first] + (a + b)
  {
  }

  lemma {:induction false} NameThenEquals(name: string, rest: seq<Piece>)
    requires forall c :: c in name ==> IsNameStart(c) || IsDigit(c)
    requires rest != [] && rest[0] == Char('=', false)
    ensures NamePieces(Pieces(name, false) + rest) == |name| && NameOf(Pieces(name, false) + rest) == name
  {
    if name == "" {
      assert Pieces(name, false) + rest == rest;
    } else {
      assert name[0] in name && forall c :: c in name[1..] ==> c in name;
      NameThenEquals(name[1..], rest);
      NameStep(name[0], Pieces(name[1..], false) + rest);
      GroupPieces(Char(name[0], false), Pieces(name[1..], false), rest);
      assert [name[0]] + name[1..] == name;
    }
  }

  lemma AssignsTheOutput(name: string, text: string, sh: Shell)
    requires IsName(name) && Substituted(text, sh.env, sh.files).Some?
    ensures var (value, status) := Substituted(text, sh.env, sh.files).value;
            RunOne([AssignWord(name, text)], sh) == Some((sh.(env := sh.env[name := value]), status))
  {
    var rest := [Char('=', false), Command(text, false)];
    NameThenEquals(name, rest);
    var pieces := AssignWord(name, text).pieces;
    assert pieces[0] == Char(name[0], false) && pieces[|name|] == rest[0] && pieces[|name| + 1] == rest[1];
    assert !IsDigit(name[0]);
    assert IsAssignment(pieces);
  }

  lemma ReadsTheFile(cat: string, file: string, env: map<string, string>, files: map<string, string>)
    requires cat == "cat" && !GetsQuotes(cat) && !TakenAsSyntax(cat) && !GetsQuotes(file) && IsFileOperand(file)
    ensures Substituted(cat + [' '] + file, env, files) ==
            Some(if file in files then (TrimNewlines(files[file]), Succeeded) else ("", Failed))
  {
    PlainWord(file, env);
    CommandThenArguments(cat, file, [file], env);
    assert [cat] + [file] == [cat, file];
  }

  lemma {:induction false} WordsHaveFields(words: seq<string>, tokens: seq<Token>, env: map<string, string>)
    requires |tokens| == |words| && forall i :: 0 <= i < |words| ==> tokens[i] == Word(Pieces(words[i], false))
    ensures Fields(tokens, env) == Some(words)
  {
    if words != [] {
      PiecesExpand(words[0], false, env);
      WordsHaveFields(words[1..], tokens[1..], env);
      assert [words[0]] + words[1..] == words;
    }
  }

  lemma RemovesTheFile(remove: string, force: string, file: string, sh: Shell)
    requires remove == "rm" && force == "-f" && !GetsQuotes(remove) && !TakenAsSyntax(remove) && IsFileOperand(file)
    ensures RunOne(RemoveWords(remove, force, file), sh) ==
            Some((sh.(files := sh.files - {file}, ran := sh.ran + [[remove, force, file]]), Succeeded))
  {
    WordsHaveFields([remove, force, file], RemoveWords(remove, force, file), sh.env);
    NamesCommandIff(remove);
  }

  /** A command that ends in `--` and an operand is no removal, so it is only started. */
  lemma StartsTheCommand(tokens: seq<Token>, argv: seq<string>, dashes: string, operand: string, sh: Shell)
    requires CommandOf(tokens, sh.env) == Some(argv) && dashes == "--"
    requires |argv| >= 3 && argv[|argv| - 2] == dashes && argv[|argv| - 1] == operand
    ensures RunOne(tokens, sh) == Some((sh.(ran := sh.ran + [argv]), Unknown)) && And !in tokens
  {
    FieldsAreWords(tokens, sh.env);
    assert dashes[1] == '-';
    assert !IsRemoval(argv);
  }

  // ---------- the whole script ----------

  function PromptIn(files: map<string, string>): string {
    if PROMPT_FILE in files then TrimNewlines(files[PROMPT_FILE]) else ""
  }

  /** The command's arguments: the flags, the config path and, behind `--`, the prompt. */
  function ScriptArguments(flags: LaunchFlags, given: seq<string>, config: string, prompt: string): seq<string> {
    given + (if flags.mcpConfig.Some? then [MCP_CONFIG, config] else []) + ["--", prompt]
  }

  /** The whole script. It reads the prompt file, less the text's final newlines,
      into `prompt`, removes the file, and only then starts the command, with its
      parameters raw and the prompt as the one operand. Without a prompt file it
      starts nothing. */
  lemma ScriptRunsCommand(flags: LaunchFlags, extra: string, sh: Shell)
    requires "0" in sh.env && (flags.mcpConfig.Some? ==> "1" in sh.env)
    requires Argv(flags.base + extra, sh.env["prompt" := PromptIn(sh.files)]).Some?
    ensures var env := sh.env["prompt" := PromptIn(sh.files)];
            var argv := [sh.env["0"]] + ScriptArguments(flags, Argv(flags.base + extra, env).value,
                                                       if "1" in sh.env then sh.env["1"] else "", PromptIn(sh.files));
            RunScript(Body(flags, extra), sh) ==
            Some(if PROMPT_FILE in sh.files
                 then Shell(env, sh.files - {PROMPT_FILE}, sh.ran + [["rm", "-f", PROMPT_FILE]] + [argv])
                 else Shell(env, sh.files, sh.ran))
  {
    var env := sh.env["prompt" := PromptIn(sh.files)];
    var argv := [sh.env["0"]] + ScriptArguments(flags, Argv(flags.base + extra, env).value,
                                               if "1" in sh.env then sh.env["1"] else "", PromptIn(sh.files));
    BodyParts();
    ScriptCommandArguments(flags, extra, env);
    ScriptSteps("prompt", "cat", PROMPT_FILE, "rm", "-f", "&&", "--", ScriptCommand(flags, extra), argv, sh);
  }

  lemma BodyParts()
    ensures IsName("prompt") && AllSafe("prompt") && Tokens("&&") == Some([And])
    ensures !GetsQuotes("cat") && !TakenAsSyntax("cat") && !GetsQuotes("rm")
            && !TakenAsSyntax("rm") && !GetsQuotes("-f")
    ensures !GetsQuotes(PROMPT_FILE) && IsFileOperand(PROMPT_FILE)
    ensures "prompt" != "0" && "prompt" != "1"
  {
    AndToken();
    BashNamesCommand();
  }

  /** The whole script on its words. Here and below a parameter that a `requires` holds
      to one literal names that word of the script, so that the proof handles the word
      as one value and does not spell it out character by character at every step. */
  lemma ScriptSteps(name: string, cat: string, file: string, remove: string, force: string, also: string,
                    dashes: string, command: string, argv: seq<string>, sh: Shell)
    requires cat == "cat" && file == PROMPT_FILE && remove == "rm" && force == "-f" && dashes == "--" && IsName(name)
    requires AllSafe(name) && Tokens(also) == Some([And])
    requires !GetsQuotes(cat) && !TakenAsSyntax(cat)
    requires !GetsQuotes(remove) && !TakenAsSyntax(remove) && !GetsQuotes(force)
    requires !GetsQuotes(file) && IsFileOperand(file)
    requires CommandLine(command, sh.env[name := PromptIn(sh.files)]) == Some(argv)
    requires |argv| >= 3 && argv[|argv| - 2] == dashes
    ensures var env := sh.env[name := PromptIn(sh.files)];
            RunScript(Assigning(name, cat + [' '] + file) + [' ']
                      + (also + [' '] + (remove + [' '] + force + [' '] + file + [' '] + (also + [' '] + command))),
                      sh) ==
            Some(if file in sh.files
                 then Shell(env, sh.files - {file}, sh.ran + [[remove, force, file]] + [argv])
                 else Shell(env, sh.files, sh.ran))
  {
    var text := cat + [' '] + file;
    var sh1 := sh.(env := sh.env[name := PromptIn(sh.files)]);
    assert RunOne([AssignWord(name, text)], sh) == Some((sh1, if file in sh.files then Succeeded else Failed)) by {
      PromptStep(name, cat, file, sh);
    }
    assert PlainText(text);
    StepsRun(name, text, file in sh.files, file, remove, force, also, dashes, command, argv, sh, sh1);
  }

  lemma StepsRun(name: string, text: string, found: bool, file: string, remove: string, force: string, also: string,
                 dashes: string, command: string, argv: seq<string>, sh: Shell, sh1: Shell)
    requires name != "" && AllSafe(name) && PlainText(text) && Tokens(also) == Some([And])
    requires RunOne([AssignWord(name, text)], sh) == Some((sh1, if found then Succeeded else Failed))
    requires remove == "rm" && force == "-f" && dashes == "--" && !GetsQuotes(remove) && !TakenAsSyntax(remove)
    requires !GetsQuotes(force) && !GetsQuotes(file) && IsFileOperand(file)
    requires CommandLine(command, sh1.env) == Some(argv) && |argv| >= 3 && argv[|argv| - 2] == dashes
    ensures RunScript(Assigning(name, text) + [' ']
                      + (also + [' '] + (remove + [' '] + force + [' '] + file + [' '] + (also + [' '] + command))),
                      sh) ==
            Some(if found then Shell(sh1.env, sh1.files - {file}, sh1.ran + [[remove, force, file]] + [argv]) else sh1)
  {
    StepTokens(name, text, remove, force, file, also, command);
    StepsDo([AssignWord(name, text)], found, file, remove, force, dashes, Tokens(command).value, argv, sh, sh1);
  }

  lemma StepTokens(name: string, text: string, remove: string, force: string,
                   file: string, also: string, command: string)
    requires name != "" && AllSafe(name) && PlainText(text) && Tokens(also) == Some([And]) && Tokens(command).Some?
    requires !GetsQuotes(remove) && !GetsQuotes(force) && !GetsQuotes(file)
    ensures Tokens(Assigning(name, text) + [' ']
                   + (also + [' '] + (remove + [' '] + force + [' '] + file + [' '] + (also + [' '] + command))))
            == Some([AssignWord(name, text)]
                    + ([And] + (RemoveWords(remove, force, file) + ([And] + Tokens(command).value))))
  {
    AssigningTokens(name, text);
    RemoveTokens(remove, force, file);
    ScriptTokens(Assigning(name, text), also, remove + [' '] + force + [' '] + file, command,
                 [AssignWord(name, text)], RemoveWords(remove, force, file), Tokens(command).value);
  }

  lemma PromptStep(name: string, cat: string, file: string, sh: Shell)
    requires cat == "cat" && file == PROMPT_FILE && IsName(name)
    requires !GetsQuotes(cat) && !TakenAsSyntax(cat) && !GetsQuotes(file) && IsFileOperand(file)
    ensures RunOne([AssignWord(name, cat + [' '] + file)], sh) ==
            Some((sh.(env := sh.env[name := PromptIn(sh.files)]), if file in sh.files then Succeeded else Failed))
  {
    ReadsTheFile(cat, file, sh.env, sh.files);
    AssignsTheOutput(name, cat + [' '] + file, sh);
  }

  /** After the prompt step: a removal and the command, or nothing more. */
  lemma StepsDo(first: seq<Token>, found: bool, file: string, remove: string, force: string, dashes: string,
                z: seq<Token>, argv: seq<string>, sh: Shell, sh1: Shell)
    requires And !in first && RunOne(first, sh) == Some((sh1, if found then Succeeded else Failed))
    requires remove == "rm" && force == "-f" && dashes == "--"
    requires !GetsQuotes(remove) && !TakenAsSyntax(remove) && IsFileOperand(file)
    requires CommandOf(z, sh1.env) == Some(argv) && |argv| >= 3 && argv[|argv| - 2] == dashes
    ensures RunList(first + ([And] + (RemoveWords(remove, force, file) + ([And] + z))), sh) ==
            Some(if found then Shell(sh1.env, sh1.files - {file}, sh1.ran + [[remove, force, file]] + [argv]) else sh1)
  {
    RunListStep(first, RemoveWords(remove, force, file) + ([And] + z), sh);
    if found {
      RemoveThenStart(file, remove, force, dashes, z, argv, sh1);
    }
  }

  lemma RemoveThenStart(file: string, remove: string, force: string, dashes: string,
                        z: seq<Token>, argv: seq<string>, sh: Shell)
    requires remove == "rm" && force == "-f" && dashes == "--"
    requires !GetsQuotes(remove) && !TakenAsSyntax(remove) && IsFileOperand(file)
    requires CommandOf(z, sh.env) == Some(argv) && |argv| >= 3 && argv[|argv| - 2] == dashes
    ensures RunList(RemoveWords(remove, force, file) + ([And] + z), sh) ==
            Some(Shell(sh.env, sh.files - {file}, sh.ran + [[remove, force, file]] + [argv]))
  {
    var next := sh.(files := sh.files - {file}, ran := sh.ran + [[remove, force, file]]);
    RemovesTheFile(remove, force, file, sh);
    RunListStep(RemoveWords(remove, force, file), z, sh);
    StartsTheCommand(z, argv, dashes, argv[|argv| - 1], next);
    RunListLast(z, next);
  }

  // ---------- the flags of a task agent ----------

  lemma HomePathWord(path: string, env: map<string, string>)
    requires AllSafe(path) && HomeSet(env)
    ensures Argv(HomePath(path), env) == Some([env["HOME"] + ("/" + path)])
  {
    var line, tail := HomePath(path), "/" + path;
    assert line[0] == '~' && line[1..] == tail && tail[0] == '/';
    assert AllSafe(tail);
    SafeRun(tail, "", Some([Tilde]), []);
    assert tail + "" == tail;
    var pieces := [Tilde] + Pieces(tail, false);
    EndOfWord(pieces);
    assert pieces[1..] == Pieces(tail, false);
    PiecesExpand(tail, false, env);
    OneField(pieces, env["HOME"] + tail, env);
  }

  lemma AppendHomePath(line: string, argv: seq<string>, path: string, env: map<string, string>)
    requires Argv(line, env) == Some(argv) && AllSafe(path) && HomeSet(env)
    ensures Argv(line + [' '] + HomePath(path), env) == Some(argv + [env["HOME"] + ("/" + path)])
  {
    HomePathWord(path, env);
    ArgvAppend(line, HomePath(path), env);
  }

  /** What the fixed flags come to: the two paths under the home directory, the
      session name and the model. */
  function AgentArguments(agentName: string, model: string, home: string): seq<string> {
    ["--plugin-dir", home + ("/" + ".claude/plugins/local/dispatch"),
     "--settings", home + ("/" + ".claude/dispatch-statusline.json"),
     "--name", agentName, "--model", model]
  }

  /** Agent names and model aliases are plain words. */
  predicate PlainFlags(agentName: string, model: string) {
    !GetsQuotes(agentName) && !GetsQuotes(model)
  }

  lemma FlagWordsSafe()
    ensures !GetsQuotes("--plugin-dir") && !GetsQuotes("--settings") && !GetsQuotes("--name") && !GetsQuotes("--model")
  {
  }

  lemma PluginDirSafe()
    ensures AllSafe(PLUGIN_DIR)
  {
  }

  lemma SettingsSafe()
    ensures AllSafe(STATUSLINE_SETTINGS)
  {
  }

  /** The shell expands the two `~` of the fixed flags and leaves the rest as it is. */
  lemma BaseFlagArguments(agentName: string, model: string, env: map<string, string>)
    requires PlainFlags(agentName, model) && HomeSet(env)
    ensures Argv(BaseFlags(agentName, model), env) == Some(AgentArguments(agentName, model, env["HOME"]))
  {
    FlagWordsSafe();
    PluginDirSafe();
    SettingsSafe();
    FourFlags("--plugin-dir", PLUGIN_DIR, "--settings", STATUSLINE_SETTINGS, "--name",
              agentName, "--model", model, env);
  }

  lemma FourFlags(f: string, dir: string, g: string, file: string, h: string, agentName: string,
                  i: string, model: string, env: map<string, string>)
    requires !GetsQuotes(f) && !GetsQuotes(g) && !GetsQuotes(h) && !GetsQuotes(i) && AllSafe(dir) && AllSafe(file)
    requires PlainFlags(agentName, model) && HomeSet(env)
    ensures Argv(f + [' '] + HomePath(dir) + [' '] + g + [' '] + HomePath(file) + [' ']
                 + h + [' '] + agentName + [' '] + i + [' '] + model, env)
            == Some([f, env["HOME"] + ("/" + dir), g, env["HOME"] + ("/" + file), h, agentName, i, model])
  {
    var home := env["HOME"];
    PlainWord(f, env);
    AppendHomePath(f, [f], dir, env);
    var line := f + [' '] + HomePath(dir);
    var argv := [f] + [home + ("/" + dir)];
    AppendSafe(line, argv, g, env);
    AppendHomePath(line + [' '] + g, argv + [g], file, env);
    line, argv := line + [' '] + g + [' '] + HomePath(file), argv + [g] + [home + ("/" + file)];
    AppendSafe(line, argv, h, env);
    AppendSafe(line + [' '] + h, argv + [h], agentName, env);
    line, argv := line + [' '] + h + [' '] + agentName, argv + [h] + [agentName];
    AppendSafe(line, argv, i, env);
    AppendSafe(line + [' '] + i, argv + [i], model, env);
    assert argv + [i] + [model] == [f, home + ("/" + dir), g, home + ("/" + file), h, agentName, i, model];
  }

  // ---------- what a launch starts ----------

  /** The ` --continue` of a resume that carries a message. */
  function Continued(resumed: bool): string {
    if resumed then [' '] + "--continue" else ""
  }

  function ContinuedArguments(resumed: bool): seq<string> {
    if resumed then ["--continue"] else []
  }

  lemma GivenArguments(agentName: string, model: string, resumed: bool, env: map<string, string>)
    requires PlainFlags(agentName, model) && HomeSet(env)
    ensures Argv(BaseFlags(agentName, model) + Continued(resumed), env) ==
            Some(AgentArguments(agentName, model, env["HOME"]) + ContinuedArguments(resumed))
  {
    var base, argv := BaseFlags(agentName, model), AgentArguments(agentName, model, env["HOME"]);
    BaseFlagArguments(agentName, model, env);
    if resumed {
      assert !GetsQuotes("--continue");
      AppendSafe(base, argv, "--continue", env);
      assert base + Continued(resumed) == base + [' '] + "--continue";
    } else {
      assert base + "" == base && argv + [] == argv;
    }
  }

  lemma BaseFlagsLackQuote(agentName: string, model: string, resumed: bool)
    requires PlainFlags(agentName, model)
    ensures Lacks(BaseFlags(agentName, model), '\'') && Lacks(Continued(resumed), '\'')
  {
    FlagWordsSafe();
    PluginDirSafe();
    SettingsSafe();
    assert !IsSafe('\'');
    assert Lacks(HomePath(PLUGIN_DIR), '\'') && Lacks(HomePath(STATUSLINE_SETTINGS), '\'');
    assert Lacks(agentName, '\'') && Lacks(model, '\'');
    assert Lacks("--plugin-dir", '\'') && Lacks("--settings", '\'') && Lacks("--name", '\'') && Lacks("--model", '\'');
    assert Lacks("--continue", '\'');
  }

  /** What the binary is started with. */
  function AgentArgv(claude: string, agentName: string, model: string, mcpConfig: Option<string>, resumed: bool,
                     home: string, prompt: string): seq<string> {
    [claude] + ((AgentArguments(agentName, model, home) + ContinuedArguments(resumed))
                + (if mcpConfig.Some? then ["--mcp-config", mcpConfig.value] else []) + ["--", prompt])
  }

  /** The launch line of a task agent. */
  function AgentLine(claude: string, agentName: string, model: string, mcpConfig: Option<string>,
                     resumed: bool): string {
    PromptLaunchCommandWith(ShellQuote(claude), AgentFlags(agentName, model, mcpConfig), Continued(resumed))
  }

  /** A shell that reads the line removes the prompt file and then starts the command,
      or starts nothing when there is no prompt file. */
  predicate Starts(line: string, command: seq<string>, env: map<string, string>, files: map<string, string>) {
    var argv := CommandLine(line, env);
    argv.Some? && BashC(argv.value, env, files).Some? &&
    var sh := BashC(argv.value, env, files).value;
    if ".claude-prompt" in files
    then sh.files == files - {".claude-prompt"} && sh.ran == [["rm", "-f", ".claude-prompt"], command]
    else sh.files == files && sh.ran == []
  }

  /** A launch, from the launch line to the process it starts: the
      binary with the fixed flags, their `~` expanded, the raw config path and the
      prompt file's text, less its final newlines, as the one operand behind `--`;
      the prompt file is gone by then. Without the file nothing is started.
      Whatever the binary's path looks like, it is run, as `$0`. */
  lemma LaunchStartsTheAgent(claude: string, agentName: string, model: string, mcpConfig: Option<string>, resumed: bool,
                             env: map<string, string>, files: map<string, string>)
    requires PlainFlags(agentName, model) && HomeSet(env)
    ensures Starts(AgentLine(claude, agentName, model, mcpConfig, resumed),
                   AgentArgv(claude, agentName, model, mcpConfig, resumed, env["HOME"], PromptIn(files)), env, files)
  {
    var flags, extra := AgentFlags(agentName, model, mcpConfig), Continued(resumed);
    BaseFlagsLackQuote(agentName, model, resumed);
    LaunchLinePassesRawValues(claude, flags, extra, env);
    var more := if mcpConfig.Some? then [mcpConfig.value] else [];
    var argv := ["bash", "-c", Body(flags, extra), claude] + more;
    BashRuns(argv, claude, mcpConfig, env, files);
    var sh := Shell(ScriptVariables(claude, mcpConfig, env), files, []);
    AgentScript(claude, agentName, model, mcpConfig, resumed, env, sh);
  }

  function ScriptVariables(claude: string, mcpConfig: Option<string>, env: map<string, string>): map<string, string> {
    if mcpConfig.Some? then env["0" := claude]["1" := mcpConfig.value] else env["0" := claude]
  }

  lemma BashRuns(argv: seq<string>, claude: string, mcpConfig: Option<string>,
                 env: map<string, string>, files: map<string, string>)
    requires |argv| >= 4 && argv[0] == "bash" && argv[1] == "-c" && argv[3] == claude
    requires argv[4..] == if mcpConfig.Some? then [mcpConfig.value] else []
    ensures BashC(argv, env, files) == RunScript(argv[2], Shell(ScriptVariables(claude, mcpConfig, env), files, []))
  {
    assert mcpConfig.Some? ==> argv[4] == argv[4..][0];
  }

  lemma AgentScript(claude: string, agentName: string, model: string, mcpConfig: Option<string>, resumed: bool,
                    env: map<string, string>, sh: Shell)
    requires PlainFlags(agentName, model) && HomeSet(env)
    requires sh.env == ScriptVariables(claude, mcpConfig, env) && sh.ran == []
    ensures var after := RunScript(Body(AgentFlags(agentName, model, mcpConfig), Continued(resumed)), sh);
            after.Some? &&
            if PROMPT_FILE in sh.files
            then && after.value.files == sh.files - {PROMPT_FILE}
                 && after.value.ran == [["rm", "-f", PROMPT_FILE],
                                        AgentArgv(claude, agentName, model, mcpConfig,
                                                  resumed, env["HOME"], PromptIn(sh.files))]
            else after.value.files == sh.files && after.value.ran == []
  {
    var script := sh.env["prompt" := PromptIn(sh.files)];
    NamesApart();
    assert script["HOME"] == env["HOME"];
    GivenArguments(agentName, model, resumed, script);
    ScriptRunsCommand(AgentFlags(agentName, model, mcpConfig), Continued(resumed), sh);
  }

  lemma NamesApart()
    ensures "HOME" != "0" && "HOME" != "1" && "HOME" != "prompt" && "0" != "1"
  {
    assert "0"[0] != "1"[0] && "HOME"[0] == 'H';
  }

  /** The resume line runs the binary itself, with the fixed flags, their `~`
      expanded, and the raw config path: exactly when the binary's path is not a
      word the shell takes for a reserved word or an assignment. */
  lemma ResumeLineRunsTheBinaryIff(claude: string, agentName: string, model: string,
                                   mcpConfig: Option<string>, env: map<string, string>)
    requires PlainFlags(agentName, model) && HomeSet(env)
    ensures var config := if mcpConfig.Some? then ["--mcp-config", mcpConfig.value] else [];
            var argv := [claude] + (AgentArguments(agentName, model, env["HOME"]) + config + ["--continue"]);
            var line := ResumeCommand(ShellQuote(claude), AgentFlags(agentName, model, mcpConfig));
            && (CommandLine(line, env) == Some(argv) <==> !TakenAsSyntax(claude))
            && (TakenAsSyntax(claude) ==> CommandLine(line, env) == None)
  {
    var flags := AgentFlags(agentName, model, mcpConfig);
    BaseFlagArguments(agentName, model, env);
    ResumeWords(flags, AgentArguments(agentName, model, env["HOME"]), MCP_CONFIG, "--continue", env);
    CommandThenArguments(claude, Inline(flags) + [' '] + "--continue",
                         AgentArguments(agentName, model, env["HOME"])
                         + (if mcpConfig.Some? then [MCP_CONFIG, mcpConfig.value] else []) + ["--continue"], env);
  }

  lemma ResumeWords(flags: LaunchFlags, given: seq<string>, flag: string, last: string, env: map<string, string>)
    requires Argv(flags.base, env) == Some(given) && flag == MCP_CONFIG && !GetsQuotes(flag) && !GetsQuotes(last)
    ensures Argv(Inline(flags) + [' '] + last, env) ==
            Some(given + (if flags.mcpConfig.Some? then [flag, flags.mcpConfig.value] else []) + [last])
  {
    var line := flags.base;
    var more := if flags.mcpConfig.Some? then [flag, flags.mcpConfig.value] else [];
    match flags.mcpConfig {
      case Some(path) =>
        AppendSafe(line, given, flag, env);
        AppendQuoted(line + [' '] + flag, given + [flag], path, env);
        assert line + InlineOption(flags) == line + [' '] + flag + [' '] + ShellQuote(path);
        assert given + [flag] + [path] == given + more;
      case None =>
        assert line + InlineOption(flags) == line && given + more == given;
    }
    AppendSafe(Inline(flags), given + more, last, env);
  }

  /** Two paths a resume line does not run, though the launch line would. */
  lemma TakenPaths()
    ensures TakenAsSyntax("if") && TakenAsSyntax("A=b")
  {
    assert "if" in RESERVED by {
      assert RESERVED[8] == "if";
    }
    assert "A=b"[..1] == "A" && "A=b"[1] == '=';
    assert AssignsAt("A=b", 1);
  }
}
