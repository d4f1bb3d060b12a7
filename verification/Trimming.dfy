/** Rust's `trim`, `trim_end` and `lines`, and what they ignore. */
module Trimming {
  import opened Text

  /** The Unicode `White_Space` property, which `char::is_whitespace` reads. */
  predicate IsWhite(c: char) {
    || '\t' <= c <= '\r' || c == ' '
    || c == '\U{85}' || c == '\U{A0}' || c == '\U{1680}' || '\U{2000}' <= c <= '\U{200A}'
    || c == '\U{2028}' || c == '\U{2029}' || c == '\U{202F}' || c == '\U{205F}' || c == '\U{3000}'
  }

  predicate AllWhite(s: string) {
    forall c :: c in s ==> IsWhite(c)
  }

  function TrimStart(s: string): string {
    if s != "" && IsWhite(s[0]) then TrimStart(s[1..]) else s
  }

  function TrimEnd(s: string): string {
    if s != "" && IsWhite(s[|s| - 1]) then TrimEnd(s[..|s| - 1]) else s
  }

  function Trim(s: string): string {
    TrimEnd(TrimStart(s))
  }

  lemma {:induction false} TrimStartSkips(a: string, s: string)
    requires AllWhite(a)
    ensures TrimStart(a + s) == TrimStart(s)
  {
    if a == "" {
      assert a + s == s;
    } else {
      assert a[0] in a;
      TrimStartSkips(a[1..], s);
      assert (a + s)[1..] == a[1..] + s;
    }
  }

  lemma TrimEndDropsOne(s: string, c: char)
    requires IsWhite(c)
    ensures TrimEnd(s + [c]) == TrimEnd(s)
  {
    assert (s + [c])[..|s|] == s;
  }

  lemma {:induction false} TrimEndSkips(s: string, b: string)
    requires AllWhite(b)
    ensures TrimEnd(s + b) == TrimEnd(s)
  {
    if b == "" {
      assert s + b == s;
    } else {
      var n := |b| - 1;
      assert b[n] in b;
      TrimEndSkips(s, b[..n]);
      assert s + b == (s + b[..n]) + [b[n]];
      TrimEndDropsOne(s + b[..n], b[n]);
    }
  }

  lemma {:induction false} TrimStartShape(s: string) returns (a: string)
    ensures AllWhite(a) && s == a + TrimStart(s)
    ensures TrimStart(s) == "" || !IsWhite(TrimStart(s)[0])
  {
    if s != "" && IsWhite(s[0]) {
      var rest := TrimStartShape(s[1..]);
      a := [s[0]] + rest;
    } else {
      a := "";
    }
  }

  lemma {:induction false} TrimEndShape(s: string) returns (b: string)
    ensures AllWhite(b) && s == TrimEnd(s) + b
    ensures TrimEnd(s) == "" || !IsWhite(TrimEnd(s)[|TrimEnd(s)| - 1])
  {
    if s != "" && IsWhite(s[|s| - 1]) {
      var n := |s| - 1;
      var rest := TrimEndShape(s[..n]);
      b := rest + [s[n]];
      assert s == s[..n] + [s[n]];
    } else {
      b := "";
      assert s + b == s;
    }
  }

  /** White space at either end does not change what `trim` returns. */
  lemma TrimSkips(a: string, s: string, b: string)
    requires AllWhite(a) && AllWhite(b)
    ensures Trim(a + s + b) == Trim(s)
  {
    assert a + s + b == a + (s + b);
    TrimStartSkips(a, s + b);
    var lead := TrimStartShape(s);
    var t := TrimStart(s);
    assert s + b == lead + (t + b);
    TrimStartSkips(lead, t + b);
    TrimEndSkips(t, b);
    if t == "" {
      assert t + b == b;
      AllWhiteTrims(b);
    }
  }

  lemma {:induction false} AllWhiteTrims(s: string)
    requires AllWhite(s)
    ensures TrimStart(s) == "" && TrimEnd(s) == "" && Trim(s) == ""
  {
    TrimStartSkips(s, "");
    assert s + "" == s;
    TrimEndSkips("", s);
    assert "" + s == s;
  }

  lemma TrimOfTrimEnd(s: string)
    ensures Trim(TrimEnd(s)) == Trim(s)
  {
    var b := TrimEndShape(s);
    TrimSkips("", TrimEnd(s), b);
    assert "" + TrimEnd(s) + b == s;
  }

  /** A text with nothing white at its ends is its own trim. */
  lemma TrimOfTrimmed(s: string)
    requires s == "" || (!IsWhite(s[0]) && !IsWhite(s[|s| - 1]))
    ensures Trim(s) == s && TrimEnd(s) == s
  {
  }

  lemma TrimIsTrimmed(s: string)
    ensures Trim(s) == "" || (!IsWhite(Trim(s)[0]) && !IsWhite(Trim(s)[|Trim(s)| - 1]))
  {
    var a := TrimStartShape(s);
    var b := TrimEndShape(TrimStart(s));
  }

  /** `trim_end_matches('\n')`. */
  function TrimNewlines(s: string): (r: string)
    ensures r <= s && (r != [] ==> r[|r| - 1] != '\n')
    ensures forall i :: |r| <= i < |s| ==> s[i] == '\n'
  {
    if s != [] && s[|s| - 1] == '\n' then TrimNewlines(s[..|s| - 1]) else s
  }

  // ---------- lines ----------

  /** The carriage return `lines` drops with a newline. */
  function StripCR(line: string): string {
    if line != "" && line[|line| - 1] == '\r' then line[..|line| - 1] else line
  }

  /** Index of the first newline, or the length. */
  function NewlineAt(s: string): (i: nat)
    ensures i <= |s|
    ensures i < |s| ==> s[i] == '\n'
    ensures Lacks(s[..i], '\n')
  {
    if s == "" then 0
    else if s[0] == '\n' then 0
    else
      var i := NewlineAt(s[1..]);
      assert s[..1 + i] == [s[0]] + s[1..][..i];
      1 + i
  }

  /** `str::lines`: a carriage return before a newline goes with it, and a final
      newline starts no further line. */
  function Lines(s: string): seq<string>
    decreases |s|
  {
    if s == "" then []
    else
      var i := NewlineAt(s);
      if i == |s| then [s] else [StripCR(s[..i])] + Lines(s[i + 1..])
  }

  lemma {:induction false} NoNewline(line: string)
    requires Lacks(line, '\n')
    ensures NewlineAt(line) == |line|
  {
    if line != "" {
      assert line[0] in line;
      NoNewline(line[1..]);
    }
  }

  lemma {:induction false} NewlineAfter(line: string, rest: string)
    requires Lacks(line, '\n')
    ensures NewlineAt(line + ['\n'] + rest) == |line|
  {
    if line != "" {
      NewlineAfter(line[1..], rest);
      assert (line + ['\n'] + rest)[1..] == line[1..] + ['\n'] + rest;
      assert line[0] in line;
    }
  }

  lemma LinesFirst(line: string, rest: string)
    requires Lacks(line, '\n')
    ensures Lines(line + ['\n'] + rest) == [StripCR(line)] + Lines(rest)
  {
    var s := line + ['\n'] + rest;
    NewlineAfter(line, rest);
    assert s[..|line|] == line && s[|line| + 1..] == rest;
  }

  lemma StripCRTrims(line: string)
    ensures Trim(StripCR(line)) == Trim(line)
    ensures TrimEnd(StripCR(line)) == TrimEnd(line)
  {
    if line != "" && line[|line| - 1] == '\r' {
      assert line == "" + line[..|line| - 1] + "\r";
      TrimSkips("", line[..|line| - 1], "\r");
      assert line == line[..|line| - 1] + "\r";
      TrimEndSkips(line[..|line| - 1], "\r");
    }
  }
}
