/** What a shell does with a list of simple commands joined by `&&`: assignments of
    a command substitution and commands it starts, `rm -f` among them. Anything
    else is outside the model and runs to nothing. */
module ShellScript {
  import opened Prelude
  import opened Trimming
  import opened ShellLexer

  /** A shell's variables, the files beside it, and every command it started. */
  datatype Shell = Shell(env: map<string, string>, files: map<string, string>, ran: seq<seq<string>>)

  /** How a command ended. What a started program answers is its own affair. */
  datatype Status = Succeeded | Failed | Unknown

  /** `$(...)` of a `cat`: the file's text without its final newlines, or nothing
      and a failure when there is no such file (section 2.6.3). */
  function Substituted(text: string, env: map<string, string>, files: map<string, string>): Option<(string, Status)> {
    var argv := CommandLine(text, env);
    if argv.None? || |argv.value| != 2 || argv.value[0] != "cat" || !IsFileOperand(argv.value[1]) then None
    else if argv.value[1] in files then Some((TrimNewlines(files[argv.value[1]]), Succeeded))
    else Some(("", Failed))
  }

  predicate IsFileOperand(s: string) {
    s != "" && s[0] != '-'
  }

  function NameOf(pieces: seq<Piece>): string {
    if NamePieces(pieces) == 0 then "" else [pieces[0].c] + NameOf(pieces[1..])
  }

  /** `rm -f` of one file, which succeeds whether or not the file is there. */
  predicate IsRemoval(argv: seq<string>) {
    |argv| == 3 && argv[0] == "rm" && argv[1] == "-f" && IsFileOperand(argv[2])
  }

  /** One simple command. */
  function RunOne(words: seq<Token>, sh: Shell): Option<(Shell, Status)> {
    if words == [] || words[0].And? then None
    else if IsAssignment(words[0].pieces) then Assign(words, sh)
    else
      var argv := CommandOf(words, sh.env);
      if argv.None? || argv.value == [] then None
      else
        var next := sh.(ran := sh.ran + [argv.value]);
        if IsRemoval(argv.value) then Some((next.(files := sh.files - {argv.value[2]}), Succeeded))
        else Some((next, Unknown))
  }

  /** `name=$(...)` on its own: the command's status is the substitution's. */
  function Assign(words: seq<Token>, sh: Shell): Option<(Shell, Status)>
    requires words != [] && words[0].Word?
  {
    var pieces := words[0].pieces;
    var n := NamePieces(pieces);
    if |words| != 1 || |pieces| != n + 2 || pieces[n] != Char('=', false) || !pieces[n + 1].Command? then None
    else
      var value := Substituted(pieces[n + 1].text, sh.env, sh.files);
      if value.None? then None else Some((sh.(env := sh.env[NameOf(pieces) := value.value.0]), value.value.1))
  }

  function AndAt(tokens: seq<Token>): (i: nat)
    ensures i <= |tokens| && (i < |tokens| ==> tokens[i].And?)
  {
    if tokens == [] || tokens[0].And? then 0 else 1 + AndAt(tokens[1..])
  }

  /** An AND list: it stops at the first command that fails (section 2.9.3). */
  function RunList(tokens: seq<Token>, sh: Shell): Option<Shell>
    decreases |tokens|
  {
    var i := AndAt(tokens);
    var one := RunOne(tokens[..i], sh);
    if one.None? then None
    else if i == |tokens| then Some(one.value.0)
    else
      match one.value.1
      case Succeeded => RunList(tokens[i + 1..], one.value.0)
      case Failed => Some(one.value.0)
      case Unknown => None
  }

  function RunScript(script: string, sh: Shell): Option<Shell> {
    var tokens := Tokens(script);
    if tokens.None? then None else RunList(tokens.value, sh)
  }

  /** `bash -c script zero one`: the script with its first two parameters set. */
  function BashC(argv: seq<string>, env: map<string, string>, files: map<string, string>): Option<Shell> {
    if |argv| == 4 && argv[0] == "bash" && argv[1] == "-c" then
      RunScript(argv[2], Shell(env["0" := argv[3]], files, []))
    else if |argv| == 5 && argv[0] == "bash" && argv[1] == "-c" then
      RunScript(argv[2], Shell(env["0" := argv[3]]["1" := argv[4]], files, []))
    else None
  }

  // ---------- running a list one command at a time ----------

  lemma {:induction false} AndAtAppend(first: seq<Token>, rest: seq<Token>)
    requires And !in first
    ensures AndAt(first + rest) == |first| + AndAt(rest)
  {
    if first == [] {
      assert first + rest == rest;
    } else {
      assert first[0] in first && forall t :: t in first[1..] ==> t in first;
      AndAtAppend(first[1..], rest);
      assert (first + rest)[1..] == first[1..] + rest;
    }
  }

  lemma RunListStep(first: seq<Token>, rest: seq<Token>, sh: Shell)
    requires And !in first && RunOne(first, sh).Some?
    ensures var (next, status) := RunOne(first, sh).value;
            && (status == Succeeded ==> RunList(first + ([And] + rest), sh) == RunList(rest, next))
            && (status == Failed ==> RunList(first + ([And] + rest), sh) == Some(next))
  {
    var all := first + ([And] + rest);
    AndAtAppend(first, [And] + rest);
    assert all[..|first|] == first && all[|first| + 1..] == rest;
  }

  lemma RunListLast(first: seq<Token>, sh: Shell)
    requires And !in first && RunOne(first, sh).Some?
    ensures RunList(first, sh) == Some(RunOne(first, sh).value.0)
  {
    AndAtAppend(first, []);
    assert first + [] == first && first[..|first|] == first;
  }

  lemma {:induction false} FieldsAreWords(tokens: seq<Token>, env: map<string, string>)
    requires Fields(tokens, env).Some?
    ensures And !in tokens && |Fields(tokens, env).value| == |tokens|
  {
    if tokens != [] {
      FieldsAreWords(tokens[1..], env);
      assert tokens == [tokens[0]] + tokens[1..];
    }
  }
}
