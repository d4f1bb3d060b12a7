/** A model of how a shell reads a simple command line: words (sections 2.2.1 to
    2.2.3 and 2.3 of the Shell Command Language, IEEE Std 1003.1), the tilde at the
    start of a word (2.6.1), reserved words and assignments where a command may
    start (2.4, 2.9.1), and the parameter and command expansions it meets, left as
    pieces of the word. Text that needs more than this (a pipe, a redirection, a
    pattern, a brace, a `!`, a comment, another user's home, ...) lexes to
    nothing. */
module ShellLexer {
  import opened Prelude

  datatype Piece =
    | Char(c: char, quoted: bool)
      /** An unquoted `~` that stands for the home directory. */
    | Tilde
    | Param(name: string, quoted: bool)
    | Command(text: string, quoted: bool)

  /** A word, or the operator `&&`. */
  datatype Token = Word(pieces: seq<Piece>) | And

  datatype Mode = Plain | Single | Double

  type Partial = Option<seq<Piece>>

  function Open(word: Partial): Partial {
    if word.None? then Some([]) else word
  }

  function Add(word: Partial, piece: Piece): Partial {
    Some(Open(word).value + [piece])
  }

  function Flush(word: Partial, done: seq<Token>): seq<Token> {
    if word.None? then done else done + [Word(word.value)]
  }

  predicate IsBlank(c: char) {
    c == ' ' || c == '\t'
  }

  /** A `~` before this is the whole of a tilde-prefix. */
  predicate EndsTilde(rest: string) {
    rest == "" || rest[0] == '/' || IsBlank(rest[0])
  }

  predicate IsNameStart(c: char) {
    'a' <= c <= 'z' || 'A' <= c <= 'Z' || c == '_'
  }

  predicate IsDigit(c: char) {
    '0' <= c <= '9'
  }

  function NameRun(s: string): (n: nat)
    ensures n <= |s|
  {
    if s != "" && (IsNameStart(s[0]) || IsDigit(s[0])) then 1 + NameRun(s[1..]) else 0
  }

  /** Length of the parameter name after a `$`: one digit, or a whole name. */
  function ParamLength(s: string): (n: nat)
    ensures n <= |s|
  {
    if s == "" then 0 else if IsDigit(s[0]) then 1 else if IsNameStart(s[0]) then NameRun(s) else 0
  }

  /** Index of the `)` that ends a command substitution holding plain text only,
      or the length. */
  function CloseAt(s: string): (n: nat)
    ensures n <= |s|
  {
    if s == "" || s[0] == ')' then 0
    else if s[0] in "($`'\"\\" then |s|
    else 1 + CloseAt(s[1..])
  }

  /** The expansion a `$` starts, with the characters it takes. */
  function Expansion(s: string, quoted: bool): (r: Option<(Piece, nat)>)
    requires s != "" && s[0] == '$'
    ensures r.Some? ==> 2 <= r.value.1 <= |s|
  {
    if |s| >= 2 && s[1] == '(' then
      var n := CloseAt(s[2..]);
      if n < |s[2..]| then Some((Command(s[2..2 + n], quoted), n + 3)) else None
    else
      var n := ParamLength(s[1..]);
      if n > 0 then Some((Param(s[1..1 + n], quoted), 1 + n)) else None
  }

  /** Unquoted, these need more than this model: operators, patterns, braces and
      the history characters of an interactive shell. */
  predicate IsSpecial(c: char) {
    c in "|;<>()`\n*?[]{}!^"
  }

  /** Token recognition from a point inside the input. */
  function Lex(s: string, mode: Mode, word: Partial, done: seq<Token>): Option<seq<Token>>
    decreases |s|
  {
    if s == "" then (if mode == Plain then Some(Flush(word, done)) else None)
    else if mode == Single then
      if s[0] == '\'' then Lex(s[1..], Plain, word, done)
      else Lex(s[1..], Single, Add(word, Char(s[0], true)), done)
    else if s[0] == '$' then
      var e := Expansion(s, mode == Double);
      if e.None? then None else Lex(s[e.value.1..], mode, Add(word, e.value.0), done)
    else if mode == Double then
      if s[0] == '"' then Lex(s[1..], Plain, word, done)
      else if s[0] == '`' || s[0] == '!' then None
      else if s[0] == '\\' && |s| >= 2 && s[1] in "$`\"\\" then Lex(s[2..], Double, Add(word, Char(s[1], true)), done)
      else if s[0] == '\\' && |s| >= 2 && s[1] == '\n' then Lex(s[2..], Double, word, done)
      else Lex(s[1..], Double, Add(word, Char(s[0], true)), done)
    else if IsBlank(s[0]) then Lex(s[1..], Plain, None, Flush(word, done))
    else if s[0] == '\'' then Lex(s[1..], Single, Open(word), done)
    else if s[0] == '"' then Lex(s[1..], Double, Open(word), done)
    else if s[0] == '\\' then
      if |s| < 2 then None
      else if s[1] == '\n' then Lex(s[2..], Plain, word, done)
      else Lex(s[2..], Plain, Add(word, Char(s[1], true)), done)
    else if s[0] == '&' then
      if |s| >= 2 && s[1] == '&' then Lex(s[2..], Plain, None, Flush(word, done) + [And]) else None
    else if s[0] == '~' then
      if word.None? && EndsTilde(s[1..]) then Lex(s[1..], Plain, Some([Tilde]), done) else None
    else if IsSpecial(s[0]) || (s[0] == '#' && word.None?) then None
    else Lex(s[1..], Plain, Add(word, Char(s[0], false)), done)
  }

  function Tokens(s: string): Option<seq<Token>> {
    Lex(s, Plain, None, [])
  }

  // ---------- values of words ----------

  /** `HOME` names a directory other than the root. Of other values editions of the
      standard differ, or say nothing. */
  predicate HomeSet(env: map<string, string>) {
    "HOME" in env && env["HOME"] != "" && env["HOME"][|env["HOME"]| - 1] != '/'
  }

  /** A word's one field, when no unquoted expansion could split or drop it:
      quote removal, with quoted parameters replaced by their values. */
  function ExpandPieces(pieces: seq<Piece>, env: map<string, string>): Option<string> {
    if pieces == [] then Some("")
    else
      var rest := ExpandPieces(pieces[1..], env);
      if rest.None? then None
      else
        match pieces[0]
        case Char(c, _) => Some([c] + rest.value)
        case Tilde => if HomeSet(env) then Some(env["HOME"] + rest.value) else None
        case Param(name, quoted) =>
          if quoted && name in env then Some(env[name] + rest.value) else None
        case Command(_, _) => None
  }

  /** The fields of a command: words only, each expanding to exactly one. */
  function Fields(tokens: seq<Token>, env: map<string, string>): Option<seq<string>> {
    if tokens == [] then Some([])
    else if tokens[0].And? then None
    else
      var first, rest := ExpandPieces(tokens[0].pieces, env), Fields(tokens[1..], env);
      if first.None? || rest.None? then None else Some([first.value] + rest.value)
  }

  /** The fields of a line made of words alone. */
  function Argv(line: string, env: map<string, string>): Option<seq<string>> {
    var tokens := Tokens(line);
    if tokens.None? then None else Fields(tokens.value, env)
  }

  // ---------- where a command may start ----------

  /** The words that mean something else there, unquoted and whole; bash's own
      among them. (`!`, `{`, `}`, `[[` and `]]` lex to nothing.) */
  const RESERVED: seq<string> := [
    "case", "do", "done", "elif", "else", "esac", "fi", "for", "if", "in", "then", "until", "while",
    "coproc", "function", "select", "time"
  ]

  /** The text of a word without quotes or expansions. */
  function BareText(pieces: seq<Piece>): Option<string> {
    if pieces == [] then Some("")
    else
      var rest := BareText(pieces[1..]);
      if pieces[0].Char? && !pieces[0].quoted && rest.Some? then Some([pieces[0].c] + rest.value) else None
  }

  predicate IsReserved(pieces: seq<Piece>) {
    pieces != [] && var text := BareText(pieces); text.Some? && text.value in RESERVED
  }

  /** Length of the unquoted name a word starts with. */
  function NamePieces(pieces: seq<Piece>): (n: nat)
    ensures n <= |pieces|
  {
    if pieces != [] && pieces[0].Char? && !pieces[0].quoted && (IsNameStart(pieces[0].c) || IsDigit(pieces[0].c))
    then 1 + NamePieces(pieces[1..]) else 0
  }

  /** A word that assigns, `name=...`, or in bash `name+=...`. */
  predicate IsAssignment(pieces: seq<Piece>) {
    var n := NamePieces(pieces);
    && n > 0 && !IsDigit(pieces[0].c) && n < |pieces|
    && (pieces[n] == Char('=', false)
        || (n + 1 < |pieces| && pieces[n] == Char('+', false) && pieces[n + 1] == Char('=', false)))
  }

  /** The word names the command to run. */
  predicate NamesCommand(pieces: seq<Piece>) {
    !IsReserved(pieces) && !IsAssignment(pieces)
  }

  /** What a line that is one simple command passes to the command it names,
      the name first. */
  function CommandOf(tokens: seq<Token>, env: map<string, string>): Option<seq<string>> {
    if tokens == [] || tokens[0].And? || !NamesCommand(tokens[0].pieces) then None else Fields(tokens, env)
  }

  function CommandLine(line: string, env: map<string, string>): Option<seq<string>> {
    var tokens := Tokens(line);
    if tokens.None? then None else CommandOf(tokens.value, env)
  }

  // ---------- cutting a line at a blank ----------

  lemma {:induction false} NameRunAppend(a: string, rest: string)
    requires rest != "" && !IsNameStart(rest[0]) && !IsDigit(rest[0])
    ensures NameRun(a + rest) == NameRun(a)
  {
    if a == "" {
      assert a + rest == rest;
    } else {
      NameRunAppend(a[1..], rest);
      assert (a + rest)[1..] == a[1..] + rest;
    }
  }

  lemma {:induction false} CloseAtAppend(a: string, rest: string)
    requires CloseAt(a) < |a|
    ensures CloseAt(a + rest) == CloseAt(a)
  {
    if a[0] != ')' {
      CloseAtAppend(a[1..], rest);
      assert (a + rest)[1..] == a[1..] + rest;
    }
  }

  lemma ExpansionAppend(a: string, rest: string, quoted: bool)
    requires a != "" && a[0] == '$' && Expansion(a, quoted).Some?
    requires rest != "" && !IsNameStart(rest[0]) && !IsDigit(rest[0])
    ensures Expansion(a + rest, quoted) == Expansion(a, quoted)
  {
    var s := a + rest;
    assert s[1..] == a[1..] + rest;
    if a[1] == '(' {
      assert s[2..] == a[2..] + rest;
      CloseAtAppend(a[2..], rest);
      var n := CloseAt(a[2..]);
      assert s[2..2 + n] == a[2..2 + n];
    } else {
      if !IsDigit(a[1]) {
        NameRunAppend(a[1..], rest);
      }
      var n := ParamLength(a[1..]);
      assert s[1..1 + n] == a[1..1 + n];
    }
  }

  /** What follows a complete piece of line, cut off by a blank, is lexed on its
      own, after its tokens. */
  lemma {:induction false} LexAppend(a: string, b: string, mode: Mode, word: Partial, done: seq<Token>)
    requires Lex(a, mode, word, done).Some?
    ensures Lex(a + [' '] + b, mode, word, done) == Lex(b, Plain, None, Lex(a, mode, word, done).value)
    decreases |a|
  {
    var s := a + [' '] + b;
    if a == "" {
      assert s[1..] == b;
    } else {
      assert s[0] == a[0] && s[1..] == a[1..] + [' '] + b;
      if |a| >= 2 {
        assert s[1] == a[1] && s[2..] == a[2..] + [' '] + b;
      }
      LexAppendStep(a, b, mode, word, done);
    }
  }

  lemma {:induction false} LexAppendStep(a: string, b: string, mode: Mode, word: Partial, done: seq<Token>)
    requires a != "" && Lex(a, mode, word, done).Some?
    requires (a + [' '] + b)[1..] == a[1..] + [' '] + b
    requires |a| >= 2 ==> (a + [' '] + b)[2..] == a[2..] + [' '] + b
    ensures Lex(a + [' '] + b, mode, word, done) == Lex(b, Plain, None, Lex(a, mode, word, done).value)
    decreases |a|, 1
  {
    var s := a + [' '] + b;
    assert s[0] == a[0];
    if mode == Single {
      if a[0] == '\'' {
        LexAppend(a[1..], b, Plain, word, done);
      } else {
        LexAppend(a[1..], b, Single, Add(word, Char(a[0], true)), done);
      }
    } else if a[0] == '$' {
      assert s == a + ([' '] + b);
      ExpansionAppend(a, [' '] + b, mode == Double);
      var e := Expansion(a, mode == Double).value;
      assert s[e.1..] == a[e.1..] + [' '] + b;
      LexAppend(a[e.1..], b, mode, Add(word, e.0), done);
    } else if mode == Double {
      LexAppendDouble(a, b, word, done);
    } else {
      LexAppendPlain(a, b, word, done);
    }
  }

  lemma {:induction false} LexAppendDouble(a: string, b: string, word: Partial, done: seq<Token>)
    requires a != "" && a[0] != '$' && Lex(a, Double, word, done).Some?
    requires (a + [' '] + b)[1..] == a[1..] + [' '] + b
    requires |a| >= 2 ==> (a + [' '] + b)[2..] == a[2..] + [' '] + b
    ensures Lex(a + [' '] + b, Double, word, done) == Lex(b, Plain, None, Lex(a, Double, word, done).value)
    decreases |a|, 0
  {
    var s := a + [' '] + b;
    assert s[0] == a[0] && (|a| >= 2 ==> s[1] == a[1]);
    if a[0] == '"' {
      LexAppend(a[1..], b, Plain, word, done);
    } else if a[0] == '\\' && |a| >= 2 && a[1] in "$`\"\\" {
      LexAppend(a[2..], b, Double, Add(word, Char(a[1], true)), done);
    } else if a[0] == '\\' && |a| >= 2 && a[1] == '\n' {
      LexAppend(a[2..], b, Double, word, done);
    } else {
      LexAppend(a[1..], b, Double, Add(word, Char(a[0], true)), done);
    }
  }

  lemma {:induction false} LexAppendPlain(a: string, b: string, word: Partial, done: seq<Token>)
    requires a != "" && a[0] != '$' && Lex(a, Plain, word, done).Some?
    requires (a + [' '] + b)[1..] == a[1..] + [' '] + b
    requires |a| >= 2 ==> (a + [' '] + b)[2..] == a[2..] + [' '] + b
    ensures Lex(a + [' '] + b, Plain, word, done) == Lex(b, Plain, None, Lex(a, Plain, word, done).value)
    decreases |a|, 0
  {
    var s := a + [' '] + b;
    assert s[0] == a[0] && (|a| >= 2 ==> s[1] == a[1]);
    if IsBlank(a[0]) {
      LexAppend(a[1..], b, Plain, None, Flush(word, done));
    } else if a[0] == '\'' {
      LexAppend(a[1..], b, Single, Open(word), done);
    } else if a[0] == '"' {
      LexAppend(a[1..], b, Double, Open(word), done);
    } else if a[0] == '\\' {
      if a[1] == '\n' {
        LexAppend(a[2..], b, Plain, word, done);
      } else {
        LexAppend(a[2..], b, Plain, Add(word, Char(a[1], true)), done);
      }
    } else if a[0] == '&' {
      LexAppend(a[2..], b, Plain, None, Flush(word, done) + [And]);
    } else if a[0] == '~' {
      LexAppend(a[1..], b, Plain, Some([Tilde]), done);
    } else {
      LexAppend(a[1..], b, Plain, Add(word, Char(a[0], false)), done);
    }
  }

  /** Tokens already recognised are only ever added to. */
  lemma {:induction false} LexAccumulates(s: string, mode: Mode, word: Partial, done: seq<Token>, before: seq<Token>)
    ensures Lex(s, mode, word, before + done) ==
            var r := Lex(s, mode, word, done);
            if r.None? then None else Some(before + r.value)
    decreases |s|
  {
    assert forall w: Partial :: Flush(w, before + done) == before + Flush(w, done) by {
      forall w: Partial
        ensures Flush(w, before + done) == before + Flush(w, done)
      {
        if w.Some? {
          assert before + done + [Word(w.value)] == before + (done + [Word(w.value)]);
        }
      }
    }
    if s != "" {
      LexAccumulatesStep(s, mode, word, done, before);
    }
  }

  lemma {:induction false} LexAccumulatesStep(s: string, mode: Mode, word: Partial,
                                              done: seq<Token>, before: seq<Token>)
    requires s != ""
    requires forall w: Partial :: Flush(w, before + done) == before + Flush(w, done)
    ensures Lex(s, mode, word, before + done) ==
            var r := Lex(s, mode, word, done);
            if r.None? then None else Some(before + r.value)
    decreases |s|, 1
  {
    if mode == Single {
      LexAccumulatesSingle(s, word, done, before);
    } else if s[0] == '$' {
      var e := Expansion(s, mode == Double);
      if e.Some? {
        LexAccumulates(s[e.value.1..], mode, Add(word, e.value.0), done, before);
      }
    } else if mode == Double {
      LexAccumulatesDouble(s, word, done, before);
    } else {
      LexAccumulatesPlain(s, word, done, before);
    }
  }

  lemma {:induction false} LexAccumulatesSingle(s: string, word: Partial, done: seq<Token>, before: seq<Token>)
    requires s != ""
    ensures Lex(s, Single, word, before + done) ==
            var r := Lex(s, Single, word, done);
            if r.None? then None else Some(before + r.value)
    decreases |s|, 0
  {
    LexAccumulates(s[1..], Plain, word, done, before);
    LexAccumulates(s[1..], Single, Add(word, Char(s[0], true)), done, before);
  }

  lemma {:induction false} LexAccumulatesDouble(s: string, word: Partial, done: seq<Token>, before: seq<Token>)
    requires s != "" && s[0] != '$'
    ensures Lex(s, Double, word, before + done) ==
            var r := Lex(s, Double, word, done);
            if r.None? then None else Some(before + r.value)
    decreases |s|, 0
  {
    LexAccumulates(s[1..], Plain, word, done, before);
    LexAccumulates(s[1..], Double, Add(word, Char(s[0], true)), done, before);
    if |s| >= 2 {
      LexAccumulates(s[2..], Double, Add(word, Char(s[1], true)), done, before);
      LexAccumulates(s[2..], Double, word, done, before);
    }
  }

  lemma {:induction false} LexAccumulatesPlain(s: string, word: Partial, done: seq<Token>, before: seq<Token>)
    requires s != "" && s[0] != '$'
    requires forall w: Partial :: Flush(w, before + done) == before + Flush(w, done)
    ensures Lex(s, Plain, word, before + done) ==
            var r := Lex(s, Plain, word, done);
            if r.None? then None else Some(before + r.value)
    decreases |s|, 0
  {
    if IsBlank(s[0]) {
      LexAccumulates(s[1..], Plain, None, Flush(word, done), before);
    } else if s[0] == '\'' {
      LexAccumulates(s[1..], Single, Open(word), done, before);
    } else if s[0] == '"' {
      LexAccumulates(s[1..], Double, Open(word), done, before);
    } else if s[0] == '\\' {
      if |s| >= 2 {
        LexAccumulates(s[2..], Plain, word, done, before);
        LexAccumulates(s[2..], Plain, Add(word, Char(s[1], true)), done, before);
      }
    } else if s[0] == '&' {
      if |s| >= 2 {
        LexAccumulates(s[2..], Plain, None, Flush(word, done) + [And], before);
        assert before + Flush(word, done) + [And] == before + (Flush(word, done) + [And]);
      }
    } else if s[0] == '~' {
      LexAccumulates(s[1..], Plain, Some([Tilde]), done, before);
    } else {
      LexAccumulates(s[1..], Plain, Add(word, Char(s[0], false)), done, before);
    }
  }

  lemma {:induction false} FieldsAppend(a: seq<Token>, b: seq<Token>, env: map<string, string>)
    ensures Fields(a + b, env) ==
            var x, y := Fields(a, env), Fields(b, env);
            if x.None? || y.None? then None else Some(x.value + y.value)
  {
    if a == [] {
      assert a + b == b;
      if Fields(b, env).Some? {
        assert [] + Fields(b, env).value == Fields(b, env).value;
      }
    } else {
      FieldsAppend(a[1..], b, env);
      assert (a + b)[1..] == a[1..] + b && (a + b)[0] == a[0];
      if Fields(a, env).Some? && Fields(b, env).Some? {
        var first := ExpandPieces(a[0].pieces, env).value;
        assert [first] + (Fields(a[1..], env).value + Fields(b, env).value)
            == [first] + Fields(a[1..], env).value + Fields(b, env).value;
      }
    }
  }

  /** Two complete pieces of line with a blank between them give the tokens of
      both. */
  lemma TokensAppend(a: string, b: string)
    requires Tokens(a).Some?
    ensures Tokens(a + [' '] + b) == if Tokens(b).None? then None else Some(Tokens(a).value + Tokens(b).value)
  {
    LexAppend(a, b, Plain, None, []);
    LexAccumulates(b, Plain, None, [], Tokens(a).value);
    assert Tokens(a).value + [] == Tokens(a).value;
  }

  lemma ArgvAppend(a: string, b: string, env: map<string, string>)
    requires Argv(a, env).Some?
    ensures Argv(a + [' '] + b, env) ==
            if Argv(b, env).None? then None else Some(Argv(a, env).value + Argv(b, env).value)
  {
    TokensAppend(a, b);
    if Tokens(b).Some? {
      FieldsAppend(Tokens(a).value, Tokens(b).value, env);
    }
  }
}
