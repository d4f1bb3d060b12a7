/** Strings as the Rust standard library cuts them: splitting on one character,
    joining again, and the byte order of names.

    A Dafny character is a Unicode scalar value, so comparing characters compares
    code points, which for UTF-8 text is the order of the bytes. */
module Text {

  predicate Lacks(s: string, c: char) {
    c !in s
  }

  /** `str::split(c)`: always at least one piece. */
  function Split(s: string, c: char): (parts: seq<string>)
    ensures |parts| >= 1
  {
    if s == "" then [""]
    else if s[0] == c then [""] + Split(s[1..], c)
    else
      var rest := Split(s[1..], c);
      [[s[0]] + rest[0]] + rest[1..]
  }

  lemma {:induction false} SplitPiecesLack(s: string, c: char, i: nat)
    requires i < |Split(s, c)|
    ensures Lacks(Split(s, c)[i], c)
  {
    if s != "" {
      if s[0] == c {
        if i > 0 { SplitPiecesLack(s[1..], c, i - 1); }
      } else {
        SplitPiecesLack(s[1..], c, i);
      }
    }
  }

  /** `[String]::join(c)`. */
  function Join(parts: seq<string>, c: char): string {
    if |parts| == 0 then ""
    else if |parts| == 1 then parts[0]
    else parts[0] + [c] + Join(parts[1..], c)
  }

  lemma {:induction false} SplitOfPlain(s: string, c: char)
    requires Lacks(s, c)
    ensures Split(s, c) == [s]
  {
    if s != "" {
      SplitOfPlain(s[1..], c);
      assert [s[0]] + s[1..] == s;
    }
  }

  /** A separator between two texts splits into the pieces of both. */
  lemma {:induction false} SplitAtSeparator(a: string, b: string, c: char)
    ensures Split(a + [c] + b, c) == Split(a, c) + Split(b, c)
  {
    var whole := a + [c] + b;
    SplitStep(whole, c);
    if a == "" {
      assert whole[1..] == b;
    } else {
      var rest, more := Split(a[1..], c), Split(b, c);
      SplitStep(a, c);
      assert Split(whole[1..], c) == rest + more by {
        SplitAtSeparator(a[1..], b, c);
        assert whole[1..] == a[1..] + [c] + b;
      }
      assert (rest + more)[1..] == rest[1..] + more;
    }
  }

  lemma SplitStep(s: string, c: char)
    requires s != ""
    ensures Split(s, c) == var rest := Split(s[1..], c);
                           if s[0] == c then [""] + rest else [[s[0]] + rest[0]] + rest[1..]
  {
  }

  lemma {:induction false} JoinSplit(s: string, c: char)
    ensures Join(Split(s, c), c) == s
  {
    if s != "" {
      JoinSplit(s[1..], c);
      var rest := Split(s[1..], c);
      if s[0] == c {
        assert Split(s, c)[1..] == rest;
        assert "" + [c] + s[1..] == s;
      } else {
        var parts := Split(s, c);
        assert parts[1..] == rest[1..];
        if |rest| == 1 {
          assert [s[0]] + s[1..] == s;
        } else {
          assert [s[0]] + rest[0] + [c] + Join(rest[1..], c) == [s[0]] + (rest[0] + [c] + Join(rest[1..], c));
          assert [s[0]] + s[1..] == s;
        }
      }
    }
  }

  lemma {:induction false} SplitJoin(parts: seq<string>, c: char)
    requires |parts| >= 1
    requires forall p :: p in parts ==> Lacks(p, c)
    ensures Split(Join(parts, c), c) == parts
  {
    SplitOfPlain(parts[0], c);
    if |parts| > 1 {
      SplitJoin(parts[1..], c);
      SplitAtSeparator(parts[0], Join(parts[1..], c), c);
      assert [parts[0]] + parts[1..] == parts;
    }
  }

  /** Byte order of two names. */
  predicate Less(a: string, b: string) {
    b != "" && (a == "" || a[0] < b[0] || (a[0] == b[0] && Less(a[1..], b[1..])))
  }

  lemma {:induction false} LessIrreflexive(a: string)
    ensures !Less(a, a)
  {
    if a != "" {
      LessIrreflexive(a[1..]);
    }
  }

  lemma {:induction false} LessTotal(a: string, b: string)
    ensures a == b || Less(a, b) || Less(b, a)
  {
    if a != "" && b != "" && a[0] == b[0] {
      LessTotal(a[1..], b[1..]);
      assert a == [a[0]] + a[1..] && b == [b[0]] + b[1..];
    }
  }

  lemma {:induction false} LessTransitive(a: string, b: string, c: string)
    requires Less(a, b) && Less(b, c)
    ensures Less(a, c)
  {
    if a != "" && a[0] == b[0] && b[0] == c[0] {
      LessTransitive(a[1..], b[1..], c[1..]);
    }
  }

  /** `str::contains`. */
  predicate Contains(s: string, part: string) {
    part <= s || (s != "" && Contains(s[1..], part))
  }

  /** The word is in the text from `i` on. */
  ghost predicate StandsAt(word: string, s: string, i: nat) {
    i + |word| <= |s| && s[i..i + |word|] == word
  }

  lemma {:induction false} ContainsIff(s: string, word: string)
    requires word != ""
    ensures Contains(s, word) <==> exists i :: StandsAt(word, s, i)
  {
    if s != "" {
      ContainsIff(s[1..], word);
      if i: nat :| StandsAt(word, s[1..], i) {
        assert s[i + 1..i + 1 + |word|] == s[1..][i..i + |word|];
        assert StandsAt(word, s, i + 1);
      }
      if i: nat :| StandsAt(word, s, i) {
        if i == 0 {
          assert word == s[..|word|];
        } else {
          assert s[1..][i - 1..i - 1 + |word|] == s[i..i + |word|];
          assert StandsAt(word, s[1..], i - 1);
        }
      }
      if word <= s {
        assert StandsAt(word, s, 0);
      }
    }
  }
}
