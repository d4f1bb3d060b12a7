/** Ranking stored learnings against a query: cosine similarity over the reals,
    the scope rules, and the stable order of the scores. */
module Ranking {
  import opened Prelude
  import opened Text

  // ---------- cosine similarity ----------

  /** The dot product over the shorter length, as `zip` cuts it. */
  function Dot(a: seq<real>, b: seq<real>): real {
    if a == [] || b == [] then 0.0 else a[0] * b[0] + Dot(a[1..], b[1..])
  }

  function SumOfSquares(a: seq<real>): (r: real)
    ensures r >= 0.0
  {
    if a == [] then 0.0 else a[0] * a[0] + SumOfSquares(a[1..])
  }

  ghost predicate IsSqrt(sqrt: real -> real) {
    forall x :: x >= 0.0 ==> sqrt(x) >= 0.0 && sqrt(x) * sqrt(x) == x
  }

  /** `cosine_similarity`, for any square root. */
  method CosineSimilarity(a: seq<real>, b: seq<real>, sqrt: real -> real) returns (cosine: real)
    requires IsSqrt(sqrt)
    ensures cosine == Cosine(a, b, sqrt) && -1.0 <= cosine <= 1.0
  {
    var dot := SumProducts(a, b);
    var squaresA := SumProducts(a, a);
    var squaresB := SumProducts(b, b);
    DotSelf(a);
    DotSelf(b);
    CosineBounded(a, b, sqrt);
    var normA, normB := sqrt(squaresA), sqrt(squaresB);
    if normA == 0.0 || normB == 0.0 {
      return 0.0;
    }
    return dot / (normA * normB);
  }

  method SumProducts(a: seq<real>, b: seq<real>) returns (sum: real)
    ensures sum == Dot(a, b)
  {
    sum := 0.0;
    var i := 0;
    while i < |a| && i < |b|
      invariant i <= |a| && i <= |b|
      invariant sum + Dot(a[i..], b[i..]) == Dot(a, b)
    {
      assert a[i..][1..] == a[i + 1..] && b[i..][1..] == b[i + 1..];
      sum := sum + a[i] * b[i];
      i := i + 1;
    }
  }

  function Cosine(a: seq<real>, b: seq<real>, sqrt: real -> real): real {
    Scaled(Dot(a, b), sqrt(SumOfSquares(a)), sqrt(SumOfSquares(b)))
  }

  function Scaled(dot: real, normA: real, normB: real): real {
    if normA == 0.0 || normB == 0.0 then 0.0 else Quotient(dot, normA * normB)
  }

  function Quotient(x: real, y: real): real {
    if y == 0.0 then 0.0 else x / y
  }

  /** The product runs over as many components as both have, ... */
  lemma {:induction false} DotTruncates(a: seq<real>, b: seq<real>, n: nat)
    requires n <= |a| && n <= |b| && (n == |a| || n == |b|)
    ensures Dot(a, b) == Dot(a[..n], b[..n])
  {
    if n > 0 {
      DotTruncates(a[1..], b[1..], n - 1);
      assert a[..n][1..] == a[1..][..n - 1] && b[..n][1..] == b[1..][..n - 1];
    }
  }

  /** ... and each pair of components adds its product. */
  lemma {:induction false} DotAppend(a: seq<real>, x: real, b: seq<real>, y: real)
    requires |a| == |b|
    ensures Dot(a + [x], b + [y]) == Dot(a, b) + x * y
  {
    if a == [] {
      assert (a + [x])[1..] == [] && a + [x] == [x] && b + [y] == [y];
    } else {
      DotAppend(a[1..], x, b[1..], y);
      assert (a + [x])[1..] == a[1..] + [x] && (b + [y])[1..] == b[1..] + [y];
    }
  }

  predicate IsPerLength(similarity: real, dot: real, lengths: real) {
    if lengths == 0.0 then similarity == 0.0 else similarity * lengths == dot
  }

  /** The similarity is the product over the two lengths, and 0 when either is 0. */
  lemma CosineMeaning(a: seq<real>, b: seq<real>, sqrt: real -> real)
    ensures IsPerLength(Cosine(a, b, sqrt), Dot(a, b), sqrt(SumOfSquares(a)) * sqrt(SumOfSquares(b)))
  {
    ScaledMeaning(Dot(a, b), sqrt(SumOfSquares(a)), sqrt(SumOfSquares(b)));
  }

  lemma ScaledMeaning(dot: real, x: real, y: real)
    ensures IsPerLength(Scaled(dot, x, y), dot, x * y)
  {
    if x != 0.0 && y != 0.0 {
      QuotientTimes(dot, x * y);
    }
  }

  lemma QuotientTimes(x: real, y: real)
    requires y != 0.0
    ensures Quotient(x, y) * y == x
  {
  }

  lemma {:induction false} DotSelf(a: seq<real>)
    ensures Dot(a, a) == SumOfSquares(a)
  {
    if a != [] {
      DotSelf(a[1..]);
    }
  }

  lemma MulMonotone(x: real, y: real, z: real)
    requires x <= y && z >= 0.0
    ensures x * z <= y * z
  {
  }

  lemma PositiveProduct(x: real, y: real)
    requires x > 0.0 && y > 0.0
    ensures x * y > 0.0
  {
  }

  lemma SquareStrict(u: real, v: real)
    requires 0.0 <= u < v
    ensures u * u < v * v
  {
    PositiveProduct(v - u, v + u);
    assert v * v - u * u == (v - u) * (v + u);
  }

  /** Between non-negative numbers, squares tell the order. */
  lemma SquareOrder(v: real, u: real)
    requires u >= 0.0 && v * v <= u * u
    ensures -u <= v <= u
  {
    if v > u {
      SquareStrict(u, v);
    }
    if v < -u {
      SquareStrict(u, -v);
    }
  }

  lemma CrossTerm(d: real, x: real, y: real, p: real, q: real)
    requires p >= 0.0 && q >= 0.0 && d * d <= p * q
    ensures 2.0 * (d * (x * y)) <= p * (y * y) + q * (x * x)
  {
    var u := p * (y * y) + q * (x * x);
    var v := 2.0 * (d * (x * y));
    var s := p * (y * y) - q * (x * x);
    assert p * (y * y) >= 0.0 && q * (x * x) >= 0.0;
    var xy := x * y;
    assert xy * xy >= 0.0;
    MulMonotone(d * d, p * q, xy * xy);
    assert v * v == 4.0 * ((d * d) * (xy * xy));
    assert u * u == s * s + 4.0 * ((p * q) * (xy * xy));
    assert s * s >= 0.0;
    SquareOrder(v, u);
  }

  /** Cauchy and Schwarz, the longer vector's tail included. */
  lemma DotBounded(a: seq<real>, b: seq<real>)
    ensures Dot(a, b) * Dot(a, b) <= SumOfSquares(a) * SumOfSquares(b)
  {
    DotWithin(a, b);
    WithinMeans(Dot(a, b), SumOfSquares(a), SumOfSquares(b));
  }

  lemma WithinMeans(d: real, p: real, q: real)
    requires Within(d, p, q)
    ensures d * d <= p * q
  {
  }

  lemma {:induction false} DotWithin(a: seq<real>, b: seq<real>)
    ensures Within(Dot(a, b), SumOfSquares(a), SumOfSquares(b))
    decreases |a|
  {
    if a != [] && b != [] {
      var x, y, d, p, q := FirstTerms(a, b);
      DotWithin(a[1..], b[1..]);
      StepWithin(d, x, y, p, q, Dot(a, b), SumOfSquares(a), SumOfSquares(b));
    } else {
      NothingWithin(SumOfSquares(a), SumOfSquares(b));
    }
  }

  lemma FirstTerms(a: seq<real>, b: seq<real>) returns (x: real, y: real, d: real, p: real, q: real)
    requires a != [] && b != []
    ensures d == Dot(a[1..], b[1..]) && p == SumOfSquares(a[1..]) && q == SumOfSquares(b[1..])
    ensures Dot(a, b) == x * y + d && SumOfSquares(a) == x * x + p && SumOfSquares(b) == y * y + q
  {
    x, y := a[0], b[0];
    d, p, q := Dot(a[1..], b[1..]), SumOfSquares(a[1..]), SumOfSquares(b[1..]);
  }

  lemma StepWithin(d: real, x: real, y: real, p: real, q: real, d': real, p': real, q': real)
    requires p >= 0.0 && q >= 0.0 && Within(d, p, q)
    requires d' == x * y + d && p' == x * x + p && q' == y * y + q
    ensures Within(d', p', q')
  {
    BoundStep(d, x, y, p, q);
  }

  /** A dot product within the product of the squared norms. */
  predicate Within(d: real, p: real, q: real) {
    d * d <= p * q
  }

  lemma NothingWithin(p: real, q: real)
    requires p >= 0.0 && q >= 0.0
    ensures Within(0.0, p, q)
  {
  }

  lemma BoundStep(d: real, x: real, y: real, p: real, q: real)
    requires p >= 0.0 && q >= 0.0 && Within(d, p, q)
    ensures Within(x * y + d, x * x + p, y * y + q)
  {
    CrossTerm(d, x, y, p, q);
    DotStep(d, x, y, p, q);
  }

  lemma DotStep(d: real, x: real, y: real, p: real, q: real)
    requires d * d <= p * q && 2.0 * (d * (x * y)) <= p * (y * y) + q * (x * x)
    ensures (x * y + d) * (x * y + d) <= (x * x + p) * (y * y + q)
  {
    assert (x * y + d) * (x * y + d) == (x * y) * (x * y) + 2.0 * (d * (x * y)) + d * d;
    assert (x * x + p) * (y * y + q) == (x * y) * (x * y) + (p * (y * y) + q * (x * x)) + p * q;
  }

  lemma QuotientBounded(x: real, y: real)
    requires -y <= x <= y
    ensures -1.0 <= Quotient(x, y) <= 1.0
  {
  }

  lemma ScaledBounded(dot: real, normA: real, normB: real)
    requires normA >= 0.0 && normB >= 0.0 && dot * dot <= (normA * normB) * (normA * normB)
    ensures -1.0 <= Scaled(dot, normA, normB) <= 1.0
  {
    var y := normA * normB;
    SquareOrder(dot, y);
    QuotientBounded(dot, y);
  }

  /** The similarity of any two vectors lies between -1 and 1. */
  lemma CosineBounded(a: seq<real>, b: seq<real>, sqrt: real -> real)
    requires IsSqrt(sqrt)
    ensures -1.0 <= Cosine(a, b, sqrt) <= 1.0
  {
    var p, q := SumOfSquares(a), SumOfSquares(b);
    var na, nb := sqrt(p), sqrt(q);
    assert na >= 0.0 && nb >= 0.0;
    DotBounded(a, b);
    RootsMultiply(p, q, na, nb);
    ScaledBounded(Dot(a, b), na, nb);
  }

  lemma RootsMultiply(p: real, q: real, x: real, y: real)
    requires x * x == p && y * y == q
    ensures (x * y) * (x * y) == p * q
  {
    assert (x * y) * (x * y) == (x * x) * (y * y);
  }

  lemma ScaledRoot(x: real, r: real)
    requires r >= 0.0 && r * r == x
    ensures Scaled(x, r, r) == if x == 0.0 then 0.0 else 1.0
  {
    if r > 0.0 {
      SquareStrict(0.0, r);
      QuotientOfItself(x);
    }
  }

  lemma QuotientOfItself(x: real)
    requires x != 0.0
    ensures Quotient(x, x) == 1.0
  {
  }

  /** A vector with anything in it is wholly similar to itself. */
  lemma CosineOfItself(a: seq<real>, sqrt: real -> real)
    requires IsSqrt(sqrt)
    ensures Cosine(a, a, sqrt) == if SumOfSquares(a) == 0.0 then 0.0 else 1.0
  {
    DotSelf(a);
    ScaledRoot(SumOfSquares(a), sqrt(SumOfSquares(a)));
  }

  // ---------- scope ----------

  datatype Scope = EpicScope | RepoScope | UserScope | TaskScope

  function TrimSlashes(s: string): string {
    if s != [] && s[|s| - 1] == '/' then TrimSlashes(s[..|s| - 1]) else s
  }

  /** `repo_ref_covers`. */
  predicate RepoRefCovers(scopeRef: string, repo: string) {
    var parent, child := TrimSlashes(scopeRef), TrimSlashes(repo);
    child == parent || (parent <= child && child[|parent|..] != [] && child[|parent|..][0] == '/')
  }

  lemma {:induction false} JoinAppend(a: seq<string>, b: seq<string>, c: char)
    requires a != [] && b != []
    ensures Join(a + b, c) == Join(a, c) + [c] + Join(b, c)
  {
    if |a| == 1 {
      assert (a + b)[1..] == b;
    } else {
      JoinAppend(a[1..], b, c);
      assert (a + b)[1..] == a[1..] + b;
    }
  }

  /** A repository entry covers a path exactly when its components lead the path's:
      a parent directory covers what is under it, a name that only starts alike
      does not. */
  lemma CoversIffComponentsLead(scopeRef: string, repo: string)
    ensures RepoRefCovers(scopeRef, repo) <==> Split(TrimSlashes(scopeRef), '/') <= Split(TrimSlashes(repo), '/')
  {
    var parent, child := TrimSlashes(scopeRef), TrimSlashes(repo);
    var ps, cs := Split(parent, '/'), Split(child, '/');
    if RepoRefCovers(scopeRef, repo) && child != parent {
      var rest := child[|parent| + 1..];
      assert child == parent + ['/'] + rest;
      SplitAtSeparator(parent, rest, '/');
    }
    if ps <= cs {
      JoinSplit(parent, '/');
      JoinSplit(child, '/');
      var tail := cs[|ps|..];
      assert cs == ps + tail;
      if tail != [] {
        JoinAppend(ps, tail, '/');
        assert child == parent + ['/'] + Join(tail, '/');
        assert child[|parent|..][0] == '/';
      } else {
        assert ps == cs;
      }
    }
  }

  /** `scope_multiplier_for`. */
  function ScopeMultiplier(scope: Scope, scopeRef: Option<string>, epic: Option<string>,
                           repo: Option<string>): Option<real> {
    match scope
    case EpicScope => if scopeRef.Some? && epic.Some? && scopeRef.value == epic.value then Some(0.30) else None
    case RepoScope =>
      if scopeRef.Some? && repo.Some? && RepoRefCovers(scopeRef.value, repo.value) then Some(0.20) else None
    case UserScope => Some(0.10)
    case TaskScope => Some(0.0)
  }

  // ---------- ranking ----------

  datatype Learning = Learning(id: int, scope: Scope, scopeRef: Option<string>, tags: seq<string>, upvotes: int)

  datatype Params = Params(
    query: seq<real>, epic: Option<string>, repo: Option<string>, threshold: real, tagFilter: seq<string>, limit: nat)

  datatype Scored = Scored(learning: Learning, score: real)

  function Clamp(n: int): int {
    if n < 0 then 0 else if n > 10 then 10 else n
  }

  function UpvoteBoost(upvotes: int): real {
    Clamp(upvotes) as real * 0.005
  }

  function CountIn(tags: seq<string>, filter: seq<string>): nat {
    if tags == [] then 0 else (if tags[0] in filter then 1 else 0) + CountIn(tags[1..], filter)
  }

  function TagBoost(tags: seq<string>, filter: seq<string>): real {
    if filter == [] then 0.0 else CountIn(tags, filter) as real * 0.05
  }

  /** The score of a candidate, `None` below the threshold or out of scope. */
  function ScoreOf(l: Learning, embedding: seq<real>, p: Params, sqrt: real -> real): Option<real> {
    var cosine := Cosine(p.query, embedding, sqrt);
    var scope := ScopeMultiplier(l.scope, l.scopeRef, p.epic, p.repo);
    if cosine < p.threshold || scope == None then None
    else Some(cosine * (1.0 + scope.value) + UpvoteBoost(l.upvotes) + TagBoost(l.tags, p.tagFilter))
  }

  /** The candidates with a score, in the order given. */
  function ScoredOf(candidates: seq<(Learning, seq<real>)>, p: Params, sqrt: real -> real): seq<Scored> {
    if candidates == [] then []
    else
      var score := ScoreOf(candidates[0].0, candidates[0].1, p, sqrt);
      (if score.Some? then [Scored(candidates[0].0, score.value)] else []) + ScoredOf(candidates[1..], p, sqrt)
  }

  lemma {:induction false} CountInAtMost(tags: seq<string>, filter: seq<string>)
    ensures CountIn(tags, filter) <= |tags|
  {
    if tags != [] {
      CountInAtMost(tags[1..], filter);
    }
  }

  lemma ScaledUp(cosine: real, factor: real)
    requires 0.0 <= cosine <= 1.0 && 1.0 <= factor <= 1.30
    ensures cosine <= cosine * factor <= 1.30
  {
    MulMonotone(1.0, factor, cosine);
    MulMonotone(cosine, 1.0, factor);
  }

  /** With a threshold of at least 0 the boosts only ever raise a score, and by a
      bounded amount: scope by 30 percent, upvotes by 0.05, each tag by 0.05. */
  lemma ScoreBounds(l: Learning, embedding: seq<real>, p: Params, sqrt: real -> real)
    requires IsSqrt(sqrt) && p.threshold >= 0.0 && ScoreOf(l, embedding, p, sqrt).Some?
    ensures p.threshold <= Cosine(p.query, embedding, sqrt) <= ScoreOf(l, embedding, p, sqrt).value
    ensures ScoreOf(l, embedding, p, sqrt).value <= 1.35 + |l.tags| as real * 0.05
  {
    CosineBounded(p.query, embedding, sqrt);
    CountInAtMost(l.tags, p.tagFilter);
    var scope := ScopeMultiplier(l.scope, l.scopeRef, p.epic, p.repo);
    ScaledUp(Cosine(p.query, embedding, sqrt), 1.0 + scope.value);
  }

  /** Higher scores first, equal scores in the order given. */
  predicate Precedes(s: seq<Scored>, i: nat, j: nat)
    requires i < |s| && j < |s|
  {
    s[i].score > s[j].score || (s[i].score == s[j].score && i < j)
  }

  /** All of `s` by index, each before those it precedes. */
  ghost predicate StableOrder(s: seq<Scored>, order: seq<nat>) {
    && |order| == |s|
    && (forall k :: 0 <= k < |order| ==> order[k] < |s|)
    && (forall k, m :: 0 <= k < m < |order| ==> Precedes(s, order[k], order[m]))
  }

  /** `rag_rank_learnings`: the first `limit` of the scored candidates in their
      stable descending order. */
  method RankLearnings(candidates: seq<(Learning, seq<real>)>, p: Params, sqrt: real -> real)
    returns (ranked: seq<Learning>)
    requires IsSqrt(sqrt)
    ensures var s := ScoredOf(candidates, p, sqrt);
            exists order :: StableOrder(s, order) && IsTop(s, order, p.limit, ranked)
  {
    var scored := ScoreAll(candidates, p, sqrt);
    ghost var order;
    var sorted: seq<Scored>;
    sorted, order := SortByScore(scored);
    ranked := [];
    for k := 0 to |sorted|
      invariant |ranked| == Least(k, p.limit)
      invariant forall i :: 0 <= i < |ranked| ==> ranked[i] == scored[order[i]].learning
    {
      if |ranked| < p.limit {
        ranked := ranked + [sorted[k].learning];
      }
    }
  }

  function Least(a: nat, b: nat): nat {
    if a < b then a else b
  }

  ghost predicate IsTop(s: seq<Scored>, order: seq<nat>, limit: nat, ranked: seq<Learning>)
    requires StableOrder(s, order)
  {
    |ranked| == Least(limit, |s|) && forall k :: 0 <= k < |ranked| ==> ranked[k] == s[order[k]].learning
  }

  method ScoreAll(candidates: seq<(Learning, seq<real>)>, p: Params, sqrt: real -> real) returns (scored: seq<Scored>)
    requires IsSqrt(sqrt)
    ensures scored == ScoredOf(candidates, p, sqrt)
  {
    scored := [];
    assert candidates[0..] == candidates;
    for i := 0 to |candidates|
      invariant scored + ScoredOf(candidates[i..], p, sqrt) == ScoredOf(candidates, p, sqrt)
    {
      assert candidates[i..][0] == candidates[i] && candidates[i..][1..] == candidates[i + 1..];
      var score := ScoreOf(candidates[i].0, candidates[i].1, p, sqrt);
      var next := if score.Some? then [Scored(candidates[i].0, score.value)] else [];
      ghost var later := ScoredOf(candidates[i + 1..], p, sqrt);
      assert scored + (next + later) == (scored + next) + later;
      scored := scored + next;
    }
    assert candidates[|candidates|..] == [];
  }

  /** A stable sort on the score, highest first: each candidate goes in after the
      ones already there that score no less. */
  method SortByScore(s: seq<Scored>) returns (sorted: seq<Scored>, ghost order: seq<nat>)
    ensures StableOrder(s, order) && |sorted| == |s|
    ensures forall k :: 0 <= k < |s| ==> sorted[k] == s[order[k]]
  {
    sorted, order := [], [];
    for i := 0 to |s|
      invariant |sorted| == |order| == i
      invariant forall k :: 0 <= k < i ==> order[k] < i && sorted[k] == s[order[k]]
      invariant forall k, m :: 0 <= k < m < i ==> Precedes(s, order[k], order[m])
    {
      var at := PlaceFor(s, i, sorted, order);
      InsertedOrder(s, order, i, at);
      sorted := sorted[..at] + [s[i]] + sorted[at..];
      order := order[..at] + [i] + order[at..];
    }
  }

  /** Where candidate `i` goes among the ones before it. */
  method PlaceFor(s: seq<Scored>, i: nat, sorted: seq<Scored>, ghost order: seq<nat>) returns (at: nat)
    requires i < |s| && |sorted| == |order| == i
    requires forall k :: 0 <= k < i ==> order[k] < i && sorted[k] == s[order[k]]
    requires forall k, m :: 0 <= k < m < i ==> Precedes(s, order[k], order[m])
    ensures at <= i
    ensures forall k :: at <= k < i ==> Precedes(s, i, order[k])
    ensures forall k :: 0 <= k < at ==> Precedes(s, order[k], i)
  {
    at := i;
    while at > 0 && sorted[at - 1].score < s[i].score
      invariant at <= i
      invariant forall k :: at <= k < i ==> Precedes(s, i, order[k])
    {
      at := at - 1;
    }
    assert at > 0 ==> Precedes(s, order[at - 1], i);
  }

  lemma InsertedOrder(s: seq<Scored>, order: seq<nat>, i: nat, at: nat)
    requires i < |s| && |order| == i && at <= i
    requires forall k :: 0 <= k < i ==> order[k] < i
    requires forall k, m :: 0 <= k < m < i ==> Precedes(s, order[k], order[m])
    requires forall k :: at <= k < i ==> Precedes(s, i, order[k])
    requires forall k :: 0 <= k < at ==> Precedes(s, order[k], i)
    ensures var next := order[..at] + [i] + order[at..];
            && (forall k :: 0 <= k < |next| ==> next[k] <= i)
            && (forall k, m :: 0 <= k < m < |next| ==> Precedes(s, next[k], next[m]))
  {
    var next := order[..at] + [i] + order[at..];
    assert forall k :: 0 <= k < |next| ==> next[k] == if k < at then order[k] else if k == at then i else order[k - 1];
  }

  function Below(n: nat): (r: set<nat>)
    ensures (forall i: nat :: i in r <==> i < n) && |r| == n
  {
    if n == 0 then {} else Below(n - 1) + {n - 1}
  }

  function Elements(xs: seq<nat>): set<nat> {
    set x | x in xs
  }

  lemma {:induction false} DistinctSize(xs: seq<nat>)
    requires forall k, m :: 0 <= k < m < |xs| ==> xs[k] != xs[m]
    ensures |Elements(xs)| == |xs|
  {
    if xs != [] {
      var n := |xs| - 1;
      DistinctSize(xs[..n]);
      assert xs == xs[..n] + [xs[n]];
      assert Elements(xs) == Elements(xs[..n]) + {xs[n]};
    }
  }

  /** An order of all of `s` leaves nothing out. */
  lemma OrderHasAll(s: seq<Scored>, order: seq<nat>, i: nat)
    requires StableOrder(s, order) && i < |s|
    ensures i in order
  {
    var all := Elements(order);
    DistinctSize(order);
    assert all <= Below(|s|);
    var rest := Below(|s|) - all;
    assert Below(|s|) == all + rest;
    assert |rest| == 0;
    assert i in Below(|s|) && i !in rest;
  }

  lemma OrdersAgreeAt(s: seq<Scored>, order: seq<nat>, other: seq<nat>, k: nat)
    requires StableOrder(s, order) && StableOrder(s, other) && k < |s| && order[..k] == other[..k]
    ensures order[k] == other[k] || Precedes(s, order[k], other[k])
  {
    OrderHasAll(s, order, other[k]);
    forall j | 0 <= j < k
      ensures order[j] != other[k]
    {
      assert order[j] == order[..k][j] && other[j] == other[..k][j];
      assert Precedes(s, other[j], other[k]);
    }
  }

  /** There is one stable order: the ranking leaves nothing to choose. */
  lemma {:induction false} StableOrderUnique(s: seq<Scored>, order: seq<nat>, other: seq<nat>, n: nat)
    requires StableOrder(s, order) && StableOrder(s, other) && n <= |s|
    ensures order[..n] == other[..n]
  {
    if n > 0 {
      var k := n - 1;
      StableOrderUnique(s, order, other, k);
      OrdersAgreeAt(s, order, other, k);
      OrdersAgreeAt(s, other, order, k);
      assert order[..n] == order[..k] + [order[k]] && other[..n] == other[..k] + [other[k]];
    }
  }

  /** What is kept scores no less than what the limit leaves out. */
  lemma KeptScoresNoLess(s: seq<Scored>, order: seq<nat>, limit: nat, ranked: seq<Learning>, i: nat, kept: nat)
    requires StableOrder(s, order) && IsTop(s, order, limit, ranked)
    requires i < |s| && kept < |ranked| && i !in order[..|ranked|]
    ensures s[order[kept]].score >= s[i].score
  {
    OrderHasAll(s, order, i);
    forall j | 0 <= j < |ranked|
      ensures order[j] != i
    {
      assert order[..|ranked|][j] == order[j];
    }
    var m :| 0 <= m < |order| && order[m] == i;
    assert Precedes(s, order[kept], order[m]);
  }

  ghost predicate Scores(candidates: seq<(Learning, seq<real>)>, p: Params, sqrt: real -> real, c: Scored) {
    exists i :: 0 <= i < |candidates| && candidates[i].0 == c.learning
                && ScoreOf(candidates[i].0, candidates[i].1, p, sqrt) == Some(c.score)
  }

  /** What is ranked is what reached the threshold in scope, nothing else. */
  lemma {:induction false} ScoredMembers(candidates: seq<(Learning, seq<real>)>,
                                         p: Params, sqrt: real -> real, c: Scored)
    ensures c in ScoredOf(candidates, p, sqrt) <==> Scores(candidates, p, sqrt, c)
  {
    if candidates != [] {
      var rest := candidates[1..];
      ScoredMembers(rest, p, sqrt, c);
      if Scores(rest, p, sqrt, c) {
        var i :| 0 <= i < |rest| && rest[i].0 == c.learning && ScoreOf(rest[i].0, rest[i].1, p, sqrt) == Some(c.score);
        assert candidates[i + 1] == rest[i];
      }
      if Scores(candidates, p, sqrt, c) {
        var i :| 0 <= i < |candidates| && candidates[i].0 == c.learning
                 && ScoreOf(candidates[i].0, candidates[i].1, p, sqrt) == Some(c.score);
        assert i > 0 ==> rest[i - 1] == candidates[i];
      }
    }
  }

  // ---------- what a score is made of ----------

  /** The learning is in the task's reach: its own epic's, its repository's or one that
      holds it, or anybody's. */
  ghost predicate InReach(l: Learning, p: Params) {
    match l.scope
    case EpicScope => p.epic.Some? && l.scopeRef == p.epic
    case RepoScope =>
      l.scopeRef.Some? && p.repo.Some?
      && Split(TrimSlashes(l.scopeRef.value), '/') <= Split(TrimSlashes(p.repo.value), '/')
    case _ => true
  }

  ghost function MatchingTags(tags: seq<string>, filter: seq<string>): set<nat> {
    set i: nat | i < |tags| && tags[i] in filter
  }

  ghost function Shifted(s: set<nat>): set<nat> {
    set i | i in s :: i + 1
  }

  lemma {:induction false} ShiftedSize(s: set<nat>)
    ensures |Shifted(s)| == |s|
    decreases |s|
  {
    if x :| x in s {
      var rest := s - {x};
      ShiftedSize(rest);
      assert Shifted(s) == Shifted(rest) + {x + 1} by {
        forall i | i in Shifted(s)
          ensures i in Shifted(rest) + {x + 1}
        {
          assert i - 1 in s;
          assert i - 1 != x ==> i - 1 in rest;
        }
      }
      assert x + 1 !in Shifted(rest);
    } else {
      assert Shifted(s) == {};
    }
  }

  lemma {:induction false} CountInIs(tags: seq<string>, filter: seq<string>)
    ensures CountIn(tags, filter) == |MatchingTags(tags, filter)|
  {
    if tags != [] {
      var rest := MatchingTags(tags[1..], filter);
      CountInIs(tags[1..], filter);
      ShiftedSize(rest);
      assert MatchingTags(tags, filter) == Shifted(rest) + (if tags[0] in filter then {0} else {}) by {
        forall i: nat | i in MatchingTags(tags, filter) && i > 0
          ensures i in Shifted(rest)
        {
          assert i - 1 in rest;
        }
      }
    }
  }

  /** A candidate has a score exactly when it is similar enough and in reach. The score
      is the similarity, raised by 30 percent for the epic, 20 for the repository, 10
      for the user and nothing for a task, with half a hundredth for each of up to ten
      upvotes and five hundredths for each tag that was asked for. */
  lemma ScoreMeaning(l: Learning, embedding: seq<real>, p: Params, sqrt: real -> real)
    ensures ScoreOf(l, embedding, p, sqrt).Some? <==>
            Cosine(p.query, embedding, sqrt) >= p.threshold && InReach(l, p)
    ensures ScoreOf(l, embedding, p, sqrt).Some? ==>
              var factor := match l.scope
                            case EpicScope => 1.3
                            case RepoScope => 1.2
                            case UserScope => 1.1
                            case TaskScope => 1.0;
              var upvotes := if l.upvotes <= 0 then 0 else if l.upvotes >= 10 then 10 else l.upvotes;
              ScoreOf(l, embedding, p, sqrt).value ==
              Cosine(p.query, embedding, sqrt) * factor
              + upvotes as real / 200.0 + |MatchingTags(l.tags, p.tagFilter)| as real / 20.0
  {
    if l.scopeRef.Some? && p.repo.Some? {
      CoversIffComponentsLead(l.scopeRef.value, p.repo.value);
    }
    CountInIs(l.tags, p.tagFilter);
    if p.tagFilter == [] {
      assert MatchingTags(l.tags, p.tagFilter) == {};
    }
  }

  /** Trimming leaves no slash at the end and takes nothing but slashes. */
  lemma {:induction false} TrimSlashesMeaning(s: string)
    ensures var t := TrimSlashes(s);
            t <= s && (t == "" || t[|t| - 1] != '/') && forall i :: |t| <= i < |s| ==> s[i] == '/'
  {
    if s != [] && s[|s| - 1] == '/' {
      TrimSlashesMeaning(s[..|s| - 1]);
    }
  }
}
