/** One-pass template rendering: `{{key}}` tokens filled from key and value pairs. */
module Templates {
  import opened Prelude
  import opened Trimming

  /** A template, read once: text as it stands, and the tokens between it. */
  datatype Piece = Literal(text: string) | Token(key: string)

  predicate PairAt(s: string, i: nat, c: char) {
    i + 1 < |s| && s[i] == c && s[i + 1] == c
  }

  /** Where `c` first stands twice from `from` on, or the length. */
  function FindPair(s: string, c: char, from: nat): (r: nat)
    requires from <= |s|
    ensures from <= r <= |s| && (r < |s| ==> PairAt(s, r, c))
    ensures forall i: nat :: from <= i < r ==> !PairAt(s, i, c)
    decreases |s| - from
  {
    if from == |s| || PairAt(s, from, c) then from else FindPair(s, c, from + 1)
  }

  lemma FoundAt(s: string, c: char, from: nat, r: nat)
    requires from <= r && PairAt(s, r, c) && forall i: nat :: from <= i < r ==> !PairAt(s, i, c)
    ensures FindPair(s, c, from) == r
  {
    assert !(r < FindPair(s, c, from));
  }

  /** A key in its braces. */
  function Wrapped(key: string): (r: string)
    ensures |r| == |key| + 4 && r[2..|key| + 2] == key
    ensures PairAt(r, 0, '{') && PairAt(r, |key| + 2, '}')
  {
    ['{', '{'] + key + ['}', '}']
  }

  lemma WrappedAt(s: string, open: nat, close: nat)
    requires open + 2 <= close && close + 2 <= |s| && PairAt(s, open, '{') && PairAt(s, close, '}')
    ensures Wrapped(s[open + 2..close]) == s[open..close + 2]
    ensures s == s[..open] + (Wrapped(s[open + 2..close]) + s[close + 2..])
    ensures s[..close + 2] == s[..open] + Wrapped(s[open + 2..close])
  {
  }

  /** A template cut at its first whole token. */
  datatype Cut = Cut(before: string, key: string, after: string)

  function Joined(c: Cut): string {
    c.before + (Wrapped(c.key) + c.after)
  }

  /** The search for the `}}` starts at the braces themselves. */
  function FirstToken(s: string): (r: Option<Cut>)
    ensures r.Some? ==> Joined(r.value) == s && |r.value.after| < |s|
  {
    var open := FindPair(s, '{', 0);
    if open == |s| then None
    else
      var close := FindPair(s, '}', open);
      if close == |s| then None
      else
        WrappedAt(s, open, close);
        Some(Cut(s[..open], s[open + 2..close], s[close + 2..]))
  }

  function Pieces(s: string): (r: seq<Piece>)
    ensures r != []
    decreases |s|
  {
    match FirstToken(s)
    case None => [Literal(s)]
    case Some(c) => [Literal(c.before), Token(c.key)] + Pieces(c.after)
  }

  /** The value of the first pair with this key. */
  function Lookup(pairs: seq<(string, string)>, key: string): Option<string> {
    if pairs == [] then None
    else if pairs[0].0 == key then Some(pairs[0].1)
    else Lookup(pairs[1..], key)
  }

  /** The pair whose value a token gets is the first with its key. */
  lemma {:induction false} FirstPairWins(pairs: seq<(string, string)>, key: string)
    ensures Lookup(pairs, key).None? <==> forall i :: 0 <= i < |pairs| ==> pairs[i].0 != key
    ensures forall value :: Lookup(pairs, key) == Some(value) ==>
              exists i :: 0 <= i < |pairs| && pairs[i] == (key, value) && forall j :: 0 <= j < i ==> pairs[j].0 != key
  {
    if pairs != [] && pairs[0].0 != key {
      FirstPairWins(pairs[1..], key);
      assert forall i :: 0 < i < |pairs| ==> pairs[i] == pairs[1..][i - 1];
      if Lookup(pairs, key).Some? {
        var value := Lookup(pairs, key).value;
        var rest := pairs[1..];
        var i :| 0 <= i < |rest| && rest[i] == (key, value) && forall j :: 0 <= j < i ==> rest[j].0 != key;
        assert pairs[i + 1] == (key, value);
      }
    }
  }

  /** A piece as the template spells it. */
  function Spelled(p: Piece): string {
    if p.Literal? then p.text else Wrapped(p.key)
  }

  /** A piece as rendered: an unknown key stays as it is spelled. */
  function Filled(p: Piece, pairs: seq<(string, string)>): string {
    if p.Token? && Lookup(pairs, p.key).Some? then Lookup(pairs, p.key).value else Spelled(p)
  }

  function Fill(pieces: seq<Piece>, pairs: seq<(string, string)>): string {
    if pieces == [] then [] else Filled(pieces[0], pairs) + Fill(pieces[1..], pairs)
  }

  function Spell(pieces: seq<Piece>): string {
    if pieces == [] then [] else Spelled(pieces[0]) + Spell(pieces[1..])
  }

  lemma FillCons(p: Piece, rest: seq<Piece>, pairs: seq<(string, string)>)
    ensures Fill([p] + rest, pairs) == Filled(p, pairs) + Fill(rest, pairs)
  {
    assert ([p] + rest)[1..] == rest;
  }

  lemma FillTwo(p: Piece, q: Piece, rest: seq<Piece>, pairs: seq<(string, string)>)
    ensures Fill([p, q] + rest, pairs) == (Filled(p, pairs) + Filled(q, pairs)) + Fill(rest, pairs)
  {
    FillCons(q, rest, pairs);
    FillCons(p, [q] + rest, pairs);
    assert [p, q] + rest == [p] + ([q] + rest);
    Regroup(Filled(p, pairs), Filled(q, pairs), Fill(rest, pairs));
  }

  lemma SpellCons(p: Piece, rest: seq<Piece>)
    ensures Spell([p] + rest) == Spelled(p) + Spell(rest)
  {
    assert ([p] + rest)[1..] == rest;
  }

  lemma SpellTwo(p: Piece, q: Piece, rest: seq<Piece>)
    ensures Spell([p, q] + rest) == Spelled(p) + (Spelled(q) + Spell(rest))
  {
    SpellCons(q, rest);
    SpellCons(p, [q] + rest);
    assert [p, q] + rest == [p] + ([q] + rest);
  }

  lemma Regroup(a: string, b: string, c: string)
    ensures (a + b) + c == a + (b + c)
  {
  }

  lemma FillLast(s: string, pairs: seq<(string, string)>)
    ensures Fill([Literal(s)], pairs) == s
  {
    FillCons(Literal(s), [], pairs);
    assert [Literal(s)] + [] == [Literal(s)];
  }

  /** `render_template`. */
  method RenderTemplate(template: string, pairs: seq<(string, string)>) returns (out: string)
    ensures out == Fill(Pieces(TrimNewlines(template)), pairs)
  {
    var rest := TrimNewlines(template);
    ghost var goal := Fill(Pieces(rest), pairs);
    out := [];
    while true
      invariant out + Fill(Pieces(rest), pairs) == goal
      decreases |rest|
    {
      var token := FirstToken(rest);
      if token.None? {
        FillLast(rest, pairs);
        break;
      }
      var cut := token.value;
      var value := Lookup(pairs, cut.key);
      var add := cut.before + (if value.Some? then value.value else Wrapped(cut.key));
      EmitFills(rest, cut, pairs);
      Regroup(out, add, Fill(Pieces(cut.after), pairs));
      out, rest := out + add, cut.after;
    }
    return out + rest;
  }

  lemma EmitFills(s: string, c: Cut, pairs: seq<(string, string)>)
    requires FirstToken(s) == Some(c)
    ensures Fill(Pieces(s), pairs) == (c.before + Filled(Token(c.key), pairs)) + Fill(Pieces(c.after), pairs)
  {
    FillTwo(Literal(c.before), Token(c.key), Pieces(c.after), pairs);
  }

  // ---------- what reading a template once means ----------

  /** The pieces spell the template back: reading loses nothing. */
  lemma {:induction false} PiecesSpell(s: string)
    ensures Spell(Pieces(s)) == s
    decreases |s|
  {
    match FirstToken(s)
    case None =>
      SpellCons(Literal(s), []);
      assert [Literal(s)] + [] == [Literal(s)];
    case Some(c) =>
      PiecesSpell(c.after);
      SpellTwo(Literal(c.before), Token(c.key), Pieces(c.after));
  }

  /** Text and token by turns, ending in text: no text runs into a `{{` before the
      token that follows it, no key holds its own `}}`, and nothing after the last
      token is one. */
  predicate WellRead(pieces: seq<Piece>) {
    if |pieces| == 1 then pieces[0].Literal? && FirstToken(pieces[0].text) == None
    else
      && |pieces| >= 3 && pieces[0].Literal? && pieces[1].Token?
      && TokenStands(pieces[0].text, Wrapped(pieces[1].key))
      && WellRead(pieces[2..])
  }

  predicate TokenStands(text: string, token: string)
    requires |token| >= 4
  {
    FindPair(text + token, '{', 0) == |text| && FindPair(token, '}', 0) == |token| - 2
  }

  lemma FindPairInLonger(s: string, t: string, c: char)
    ensures FindPair(s, c, 0) < |s| ==> FindPair(s + t, c, 0) == FindPair(s, c, 0)
    ensures FindPair(s + t, c, 0) + 2 <= |s| ==> FindPair(s, c, 0) == FindPair(s + t, c, 0)
  {
    assert forall i: nat :: i + 2 <= |s| ==> PairAt(s + t, i, c) == PairAt(s, i, c);
    if FindPair(s, c, 0) < |s| {
      FoundAt(s + t, c, 0, FindPair(s, c, 0));
    }
  }

  lemma FindPairAfter(t: string, s: string, c: char)
    ensures FindPair(t + s, c, |t|) == |t| + FindPair(s, c, 0)
  {
    forall i: nat
      ensures PairAt(t + s, |t| + i, c) == PairAt(s, i, c)
    {
    }
    var r := FindPair(s, c, 0);
    if r < |s| {
      assert forall i: nat :: |t| <= i < |t| + r ==> PairAt(t + s, i, c) == PairAt(s, i - |t|, c);
      FoundAt(t + s, c, |t|, |t| + r);
    } else {
      assert forall i: nat :: |t| <= i < |t + s| ==> PairAt(t + s, i, c) == PairAt(s, i - |t|, c);
    }
  }

  /** Where the braces of a token in place are found. */
  lemma BracesFound(text: string, token: string, rest: string)
    requires |token| >= 4
    ensures var s := text + (token + rest);
            TokenStands(text, token) ==>
              FindPair(s, '{', 0) == |text| && FindPair(s, '}', |text|) == |text| + |token| - 2
    ensures var s := text + (token + rest);
            FindPair(s, '{', 0) == |text| && FindPair(s, '}', |text|) == |text| + |token| - 2 ==>
              TokenStands(text, token)
  {
    assert text + (token + rest) == (text + token) + rest;
    FindPairInLonger(text + token, rest, '{');
    FindPairAfter(text, token + rest, '}');
    FindPairInLonger(token, rest, '}');
  }

  lemma SlicesOf(text: string, token: string, rest: string)
    requires |token| >= 4
    ensures var s := text + (token + rest);
            && s[..|text|] == text && s[|text| + 2..|text| + |token| - 2] == token[2..|token| - 2]
            && s[|text| + |token|..] == rest
  {
  }

  /** A token that stands in its place is the first one found. */
  lemma FirstTokenOf(c: Cut)
    requires TokenStands(c.before, Wrapped(c.key))
    ensures FirstToken(Joined(c)) == Some(c)
  {
    BracesFound(c.before, Wrapped(c.key), c.after);
    SlicesOf(c.before, Wrapped(c.key), c.after);
  }

  lemma FirstTokenStands(s: string)
    requires FirstToken(s).Some?
    ensures TokenStands(FirstToken(s).value.before, Wrapped(FirstToken(s).value.key))
  {
    var c := FirstToken(s).value;
    BracesFound(c.before, Wrapped(c.key), c.after);
  }

  lemma {:induction false} PiecesWellRead(s: string)
    ensures WellRead(Pieces(s))
    decreases |s|
  {
    match FirstToken(s)
    case None =>
    case Some(c) =>
      PiecesWellRead(c.after);
      FirstTokenStands(s);
      WellReadTwo(c.before, c.key, Pieces(c.after));
  }

  lemma WellReadTwo(text: string, key: string, rest: seq<Piece>)
    requires TokenStands(text, Wrapped(key)) && rest != [] && WellRead(rest)
    ensures WellRead([Literal(text), Token(key)] + rest)
  {
    assert ([Literal(text), Token(key)] + rest)[2..] == rest;
  }

  /** There is one way to read a template: any well-read pieces that spell it are
      its pieces. */
  lemma {:induction false} PiecesUnique(pieces: seq<Piece>)
    requires WellRead(pieces)
    ensures Pieces(Spell(pieces)) == pieces
    decreases |pieces|
  {
    if |pieces| == 1 {
      var text := pieces[0].text;
      SpellCons(pieces[0], []);
      assert pieces == [pieces[0]] + [] && text + [] == text;
      assert Spell(pieces) == text;
    } else {
      var rest := pieces[2..];
      assert pieces == [pieces[0], pieces[1]] + rest;
      SpellTwo(pieces[0], pieces[1], rest);
      FirstTokenOf(Cut(pieces[0].text, pieces[1].key, Spell(rest)));
      PiecesUnique(rest);
    }
  }

  // ---------- what rendering promises ----------

  lemma {:induction false} FillUnknown(pieces: seq<Piece>, pairs: seq<(string, string)>)
    requires forall p :: p in pieces && p.Token? ==> Lookup(pairs, p.key) == None
    ensures Fill(pieces, pairs) == Spell(pieces)
  {
    if pieces != [] {
      FillUnknown(pieces[1..], pairs);
    }
  }

  /** Keys no pair names leave the template as it stands, but for its last newlines. */
  lemma UnknownKeysLeaveTheText(template: string, pairs: seq<(string, string)>)
    requires forall p :: p in Pieces(TrimNewlines(template)) && p.Token? ==> Lookup(pairs, p.key) == None
    ensures Fill(Pieces(TrimNewlines(template)), pairs) == TrimNewlines(template)
  {
    FillUnknown(Pieces(TrimNewlines(template)), pairs);
    PiecesSpell(TrimNewlines(template));
  }

  ghost predicate DistinctKeys(pairs: seq<(string, string)>) {
    forall i, j :: 0 <= i < j < |pairs| ==> pairs[i].0 != pairs[j].0
  }

  lemma {:induction false} LookupMeaning(pairs: seq<(string, string)>, key: string, value: string)
    requires DistinctKeys(pairs)
    ensures Lookup(pairs, key) == Some(value) <==> (key, value) in pairs
  {
    if pairs != [] {
      LookupMeaning(pairs[1..], key, value);
      assert pairs == [pairs[0]] + pairs[1..];
      assert forall p :: p in pairs[1..] ==> p.0 != pairs[0].0;
    }
  }

  lemma LookupOrderIrrelevant(pairs: seq<(string, string)>, other: seq<(string, string)>, key: string)
    requires DistinctKeys(pairs) && DistinctKeys(other)
    requires forall p :: p in pairs <==> p in other
    ensures Lookup(pairs, key) == Lookup(other, key)
  {
    var a, b := Lookup(pairs, key), Lookup(other, key);
    if a.Some? {
      LookupMeaning(pairs, key, a.value);
      LookupMeaning(other, key, a.value);
    }
    if b.Some? {
      LookupMeaning(pairs, key, b.value);
      LookupMeaning(other, key, b.value);
    }
  }

  lemma {:induction false} FillAgrees(pieces: seq<Piece>, pairs: seq<(string, string)>, other: seq<(string, string)>)
    requires forall key :: Lookup(pairs, key) == Lookup(other, key)
    ensures Fill(pieces, pairs) == Fill(pieces, other)
  {
    if pieces != [] {
      FillAgrees(pieces[1..], pairs, other);
    }
  }

  /** Pairs with distinct keys can be given in any order. */
  lemma PairOrderIrrelevant(template: string, pairs: seq<(string, string)>, other: seq<(string, string)>)
    requires DistinctKeys(pairs) && DistinctKeys(other)
    requires forall p :: p in pairs <==> p in other
    ensures Fill(Pieces(template), pairs) == Fill(Pieces(template), other)
  {
    forall key
      ensures Lookup(pairs, key) == Lookup(other, key)
    {
      LookupOrderIrrelevant(pairs, other, key);
    }
    FillAgrees(Pieces(template), pairs, other);
  }

  lemma {:induction false} FillAppend(a: seq<Piece>, b: seq<Piece>, pairs: seq<(string, string)>)
    ensures Fill(a + b, pairs) == Fill(a, pairs) + Fill(b, pairs)
  {
    if a == [] {
      assert a + b == b;
    } else {
      FillAppend(a[1..], b, pairs);
      FillCons(a[0], a[1..] + b, pairs);
      assert [a[0]] + (a[1..] + b) == a + b;
      Regroup(Filled(a[0], pairs), Fill(a[1..], pairs), Fill(b, pairs));
    }
  }

  lemma FillAt(ps: seq<Piece>, pairs: seq<(string, string)>, k: nat)
    requires k < |ps|
    ensures Fill(ps, pairs) == Fill(ps[..k], pairs) + Filled(ps[k], pairs) + Fill(ps[k + 1..], pairs)
  {
    var front, back := ps[..k], ps[k..];
    assert ps == front + back;
    FillAppend(front, back, pairs);
    assert back[0] == ps[k] && back[1..] == ps[k + 1..];
  }

  /** A value is never rescanned: whatever it holds, even tokens of its own, it
      stands in the output as it is, at each place its key does. */
  lemma ValueStandsAsGiven(template: string, pairs: seq<(string, string)>, k: nat)
    requires k < |Pieces(template)| && Pieces(template)[k].Token?
    requires Lookup(pairs, Pieces(template)[k].key).Some?
    ensures var ps := Pieces(template);
            Fill(ps, pairs) == Fill(ps[..k], pairs) + Lookup(pairs, ps[k].key).value + Fill(ps[k + 1..], pairs)
  {
    FillAt(Pieces(template), pairs, k);
  }
}
