/** What each pass over the tree keeps: the file rows, the shape, the order. */
module TreePasses {
  import opened Prelude
  import opened Text
  import opened Paths
  import opened ChangedTree
  import opened ReportedPaths
  import opened TreeRows

  // ---------- inserting every binding ----------

  ghost function AsLeaf(e: Entry): Leaf {
    Leaf(e.path, Some(e.badge), e.counts)
  }

  /** No other binding's path is a proper prefix of this one's. */
  ghost predicate Topmost(entries: seq<Entry>, e: Entry) {
    e in entries && forall o :: o in entries ==> !(o.path < e.path)
  }

  lemma {:induction false} InsertAllRows(entries: seq<Entry>)
    requires SortedEntries(entries)
    requires forall e :: e in entries ==> NormalPath(e.path)
    ensures Sound(InsertAll([], entries)) && Unmerged(InsertAll([], entries))
    ensures forall l :: HasLeaf(InsertAll([], entries), l) <==> exists e :: Topmost(entries, e) && l == AsLeaf(e)
  {
    if entries != [] {
      var n := |entries| - 1;
      var before, last := entries[..n], entries[n];
      var ts := InsertAll([], before);
      InsertAllRows(before);
      LaterNeverPrefix(entries);
      assert entries == before + [last];
      assert forall e :: e in entries <==> e in before || e == last;
      assert Vacant(ts, last.path);
      BlockedMeaning(ts, last.path);
      BlockedByTopmost(before, last.path);
      InsertKeepsSound(ts, last.path, last.badge, last.counts);
      forall l
        ensures HasLeaf(InsertAll([], entries), l) <==> exists e :: Topmost(entries, e) && l == AsLeaf(e)
      {
        InsertAddsRow(ts, last.path, last.badge, last.counts, l);
        TopmostStep(before, last, l);
      }
    }
  }

  /** Adding the last entry adds one topmost row, unless an earlier one covers it. */
  lemma TopmostStep(before: seq<Entry>, last: Entry, l: Leaf)
    requires forall o :: o in before ==> !(last.path < o.path)
    ensures (exists e :: Topmost(before + [last], e) && l == AsLeaf(e)) <==>
            (exists e :: Topmost(before, e) && l == AsLeaf(e))
            || (l == AsLeaf(last) && forall o :: o in before ==> !(o.path < last.path))
  {
    var entries := before + [last];
    assert forall e :: e in entries <==> e in before || e == last;
    forall e
      ensures Topmost(entries, e) <==>
              Topmost(before, e) || (e == last && forall o :: o in before ==> !(o.path < last.path))
    {
    }
  }

  lemma LaterNeverPrefix(entries: seq<Entry>)
    requires SortedEntries(entries) && entries != []
    ensures forall e :: e in entries[..|entries| - 1] ==> !(entries[|entries| - 1].path <= e.path)
  {
    var last := entries[|entries| - 1];
    forall e | e in entries[..|entries| - 1]
      ensures !(last.path <= e.path)
    {
      var i :| 0 <= i < |entries| - 1 && entries[i] == e;
      KeyIrreflexive(e.path);
      assert KeyLess(e.path, last.path);
      assert last.path <= e.path ==> last.path < e.path || last.path == e.path;
      if last.path < e.path {
        PrefixKeyLess(last.path, e.path);
        KeyTransitive(e.path, last.path, e.path);
      }
    }
  }

  /** A path with some binding above it has a topmost binding above it. */
  lemma BlockedByTopmost(entries: seq<Entry>, path: Path)
    ensures (exists e :: e in entries && e.path < path) <==> (exists e :: Topmost(entries, e) && e.path < path)
  {
    if e :| e in entries && e.path < path {
      var t := TopmostAbove(entries, e);
      assert t.path < path;
    }
  }

  lemma {:induction false} TopmostAbove(entries: seq<Entry>, e: Entry) returns (t: Entry)
    requires e in entries
    ensures Topmost(entries, t) && t.path <= e.path
    decreases |e.path|
  {
    if o :| o in entries && o.path < e.path {
      t := TopmostAbove(entries, o);
    } else {
      t := e;
    }
  }

  // ---------- folding chains ----------

  /** No directory holds nothing but one directory. */
  ghost predicate Folded(ts: seq<Node>)
    decreases ts
  {
    forall i :: 0 <= i < |ts| ==> !HoldsOnlyADirectory(ts[i]) && Folded(ts[i].children)
  }

  lemma {:induction false} MergeChainsAt(ts: seq<Node>, i: nat)
    requires i < |ts|
    ensures MergeChains(ts)[i] == Absorb(ts[i].(children := MergeChains(ts[i].children)))
  {
    if i > 0 {
      MergeChainsAt(ts[1..], i - 1);
    }
  }

  /** One absorbing step per level folds every chain. */
  lemma {:induction false} MergeFolds(ts: seq<Node>)
    ensures Folded(MergeChains(ts))
    decreases ts
  {
    forall i | 0 <= i < |ts|
      ensures !HoldsOnlyADirectory(MergeChains(ts)[i]) && Folded(MergeChains(ts)[i].children)
    {
      MergeChainsAt(ts, i);
      MergeFolds(ts[i].children);
    }
  }

  lemma SegmentsJoin(outer: Node, inner: Node, merged: Node)
    requires merged.name == outer.name + ['/'] + inner.name
    ensures Segments(merged) == Segments(outer) + Segments(inner)
  {
    SplitAtSeparator(outer.name, inner.name, '/');
  }

  lemma {:induction false} UnderUnder(a: Path, b: Path, leaves: seq<Leaf>)
    ensures Under(a, Under(b, leaves)) == Under(a + b, leaves)
  {
    if leaves != [] {
      UnderUnder(a, b, leaves[1..]);
      assert a + (b + leaves[0].path) == (a + b) + leaves[0].path;
      assert Under(b, leaves)[1..] == Under(b, leaves[1..]);
    }
  }

  lemma AbsorbKeepsLeaves(c: Node)
    ensures NodeLeaves(Absorb(c)) == NodeLeaves(c)
  {
    if HoldsOnlyADirectory(c) {
      var only := c.children[0];
      SegmentsJoin(c, only, Absorb(c));
      UnderUnder(Segments(c), Segments(only), Leaves(only.children));
      assert Leaves(c.children) == NodeLeaves(only) + Leaves(c.children[1..]);
      assert c.children[1..] == [];
      assert NodeLeaves(only) + [] == NodeLeaves(only);
    }
  }

  /** Folding keeps every file row, in place. */
  lemma {:induction false} MergeKeepsLeaves(ts: seq<Node>)
    ensures Leaves(MergeChains(ts)) == Leaves(ts)
    decreases ts
  {
    if ts != [] {
      MergeKeepsLeaves(ts[0].children);
      MergeKeepsLeaves(ts[1..]);
      AbsorbKeepsLeaves(ts[0].(children := MergeChains(ts[0].children)));
    }
  }

  lemma {:induction false} MergeKeepsSound(ts: seq<Node>)
    requires Sound(ts)
    ensures Sound(MergeChains(ts))
    ensures forall i :: 0 <= i < |ts| ==> Segments(MergeChains(ts)[i])[0] == Segments(ts[i])[0]
    decreases ts
  {
    forall i | 0 <= i < |ts|
      ensures var c := MergeChains(ts)[i];
              && Segments(c)[0] == Segments(ts[i])[0]
              && if c.kind == File then |Segments(c)| == 1 else c.children != [] && Sound(c.children)
    {
      MergeChainsAt(ts, i);
      if ts[i].kind == Directory {
        MergeKeepsSound(ts[i].children);
        var inner := ts[i].(children := MergeChains(ts[i].children));
        if HoldsOnlyADirectory(inner) {
          SegmentsJoin(inner, inner.children[0], Absorb(inner));
        }
      }
    }
  }

  // ---------- sorting ----------

  ghost predicate Ordered(ts: seq<Node>)
    decreases ts
  {
    && (forall i, j :: 0 <= i < j < |ts| ==> Before(ts[i], ts[j]))
    && (forall i :: 0 <= i < |ts| ==> ts[i].kind == Directory ==> Ordered(ts[i].children))
  }

  lemma BeforeTransitive(a: Node, b: Node, c: Node)
    requires Before(a, b) && Before(b, c)
    ensures Before(a, c)
  {
    if a.kind == b.kind == c.kind {
      LessTransitive(FirstSegment(a.name), FirstSegment(b.name), FirstSegment(c.name));
    }
  }

  lemma BeforeTotal(a: Node, b: Node)
    requires Segments(a)[0] != Segments(b)[0]
    ensures Before(a, b) || Before(b, a)
  {
    LessTotal(FirstSegment(a.name), FirstSegment(b.name));
  }

  lemma {:induction false} InsertSiblingMembers(c: Node, s: seq<Node>, x: Node)
    ensures x in InsertSibling(c, s) <==> x == c || x in s
  {
    if s != [] {
      if Before(s[0], c) {
        InsertSiblingMembers(c, s[1..], x);
      }
      assert s == [s[0]] + s[1..];
    }
  }

  lemma {:induction false} InsertSiblingOrders(c: Node, s: seq<Node>)
    requires Sound(s) && Ordered(s) && Sound([c]) && Ordered([c])
    requires forall x :: x in s ==> Segments(x)[0] != Segments(c)[0]
    ensures Sound(InsertSibling(c, s)) && Ordered(InsertSibling(c, s))
  {
    assert [c][0] == c;
    var r := InsertSibling(c, s);
    if s != [] && Before(s[0], c) {
      InsertSiblingOrders(c, s[1..]);
      var rest := InsertSibling(c, s[1..]);
      forall k | 0 <= k < |rest|
        ensures Before(s[0], rest[k]) && Segments(s[0])[0] != Segments(rest[k])[0]
      {
        InsertedAfter(c, s, rest[k]);
      }
      HeadOrders(s[0], rest);
      assert [s[0]][0] == s[0];
    } else if s != [] {
      FrontOrders(c, s);
    }
  }

  lemma InsertedAfter(c: Node, s: seq<Node>, x: Node)
    requires Sound(s) && Ordered(s) && s != [] && Before(s[0], c) && Segments(s[0])[0] != Segments(c)[0]
    requires x in InsertSibling(c, s[1..])
    ensures Before(s[0], x) && Segments(s[0])[0] != Segments(x)[0]
  {
    InsertSiblingMembers(c, s[1..], x);
    if x != c {
      var m :| 0 <= m < |s[1..]| && s[1..][m] == x;
      assert s[m + 1] == x;
    }
  }

  lemma HeadOrders(c: Node, rest: seq<Node>)
    requires Sound(rest) && Ordered(rest)
    requires if c.kind == File then |Segments(c)| == 1 else c.children != [] && Sound(c.children) && Ordered(c.children)
    requires forall k :: 0 <= k < |rest| ==> Before(c, rest[k]) && Segments(c)[0] != Segments(rest[k])[0]
    ensures Sound([c] + rest) && Ordered([c] + rest)
  {
    HeadSound(c, rest);
    HeadOrdered(c, rest);
  }

  /** What `Sound` asks of each row on its own. */
  ghost predicate Fits(c: Node) {
    if c.kind == File then |Segments(c)| == 1 else c.children != [] && Sound(c.children)
  }

  predicate Apart(a: Node, b: Node) {
    Segments(a)[0] != Segments(b)[0]
  }

  lemma SoundParts(ts: seq<Node>)
    ensures Sound(ts) <==>
              && (forall i, j :: 0 <= i < j < |ts| ==> Apart(ts[i], ts[j]))
              && (forall i :: 0 <= i < |ts| ==> Fits(ts[i]))
  {
  }

  lemma HeadSound(c: Node, rest: seq<Node>)
    requires Sound(rest) && Fits(c) && forall k :: 0 <= k < |rest| ==> Apart(c, rest[k])
    ensures Sound([c] + rest)
  {
    SoundParts(rest);
    SoundParts([c] + rest);
  }

  ghost predicate Settled(c: Node) {
    c.kind == Directory ==> Ordered(c.children)
  }

  lemma OrderedParts(ts: seq<Node>)
    ensures Ordered(ts) <==>
              && (forall i, j :: 0 <= i < j < |ts| ==> Before(ts[i], ts[j]))
              && (forall i :: 0 <= i < |ts| ==> Settled(ts[i]))
  {
  }

  lemma HeadOrdered(c: Node, rest: seq<Node>)
    requires Ordered(rest) && Settled(c) && forall k :: 0 <= k < |rest| ==> Before(c, rest[k])
    ensures Ordered([c] + rest)
  {
    OrderedParts(rest);
    OrderedParts([c] + rest);
  }

  lemma FrontOrders(c: Node, s: seq<Node>)
    requires s != [] && Sound(s) && Ordered(s) && Sound([c]) && Ordered([c]) && !Before(s[0], c)
    requires forall x :: x in s ==> Segments(x)[0] != Segments(c)[0]
    ensures Sound([c] + s) && Ordered([c] + s)
  {
    assert [c][0] == c;
    BeforeTotal(s[0], c);
    forall k | 0 <= k < |s|
      ensures Before(c, s[k])
    {
      if k > 0 {
        BeforeTransitive(c, s[0], s[k]);
      }
    }
  }

  lemma {:induction false} SortTreeMembers(ts: seq<Node>, x: Node)
    ensures x in SortTree(ts) <==> exists i :: 0 <= i < |ts| && x == ts[i].(children := SortTree(ts[i].children))
    decreases ts
  {
    if ts != [] {
      var first := ts[0].(children := SortTree(ts[0].children));
      SortTreeMembers(ts[1..], x);
      InsertSiblingMembers(first, SortTree(ts[1..]), x);
      if i :| 0 <= i < |ts[1..]| && x == ts[1..][i].(children := SortTree(ts[1..][i].children)) {
        assert ts[i + 1] == ts[1..][i];
      }
      if i :| 0 < i < |ts| && x == ts[i].(children := SortTree(ts[i].children)) {
        assert ts[1..][i - 1] == ts[i];
      }
    }
  }

  lemma {:induction false} SortTreeNonEmpty(ts: seq<Node>)
    requires ts != []
    ensures SortTree(ts) != []
  {
    InsertSiblingMembers(ts[0].(children := SortTree(ts[0].children)), SortTree(ts[1..]),
                         ts[0].(children := SortTree(ts[0].children)));
  }

  lemma {:induction false} SortOrders(ts: seq<Node>)
    requires Sound(ts)
    ensures Sound(SortTree(ts)) && Ordered(SortTree(ts))
    decreases ts
  {
    if ts != [] {
      var c := ts[0].(children := SortTree(ts[0].children));
      SortOrders(ts[1..]);
      if c.kind == Directory {
        SortOrders(ts[0].children);
        SortTreeNonEmpty(ts[0].children);
      }
      assert Sound([c]) && Ordered([c]) by {
        assert [c][0] == c;
      }
      forall x | x in SortTree(ts[1..])
        ensures Segments(x)[0] != Segments(c)[0]
      {
        SortTreeMembers(ts[1..], x);
        var i :| 0 <= i < |ts[1..]| && x == ts[1..][i].(children := SortTree(ts[1..][i].children));
        assert ts[i + 1] == ts[1..][i];
      }
      InsertSiblingOrders(c, SortTree(ts[1..]));
    }
  }

  lemma {:induction false} SortKeepsLeaf(ts: seq<Node>, l: Leaf)
    ensures HasLeaf(SortTree(ts), l) <==> HasLeaf(ts, l)
    decreases ts
  {
    forall i | 0 <= i < |ts|
      ensures NodeHasLeaf(ts[i].(children := SortTree(ts[i].children)), l) <==> NodeHasLeaf(ts[i], l)
    {
      if ts[i].kind == Directory && Segments(ts[i]) <= l.path {
        SortKeepsLeaf(ts[i].children, l.(path := l.path[|Segments(ts[i])|..]));
      }
    }
    if HasLeaf(ts, l) {
      var i :| 0 <= i < |ts| && NodeHasLeaf(ts[i], l);
      var x := ts[i].(children := SortTree(ts[i].children));
      SortTreeMembers(ts, x);
      var k :| 0 <= k < |SortTree(ts)| && SortTree(ts)[k] == x;
    }
    if HasLeaf(SortTree(ts), l) {
      var k :| 0 <= k < |SortTree(ts)| && NodeHasLeaf(SortTree(ts)[k], l);
      SortTreeMembers(ts, SortTree(ts)[k]);
    }
  }

  lemma {:induction false} InsertSiblingFolded(c: Node, s: seq<Node>)
    requires Folded(s) && Folded([c])
    ensures Folded(InsertSibling(c, s))
  {
    assert [c][0] == c;
    forall k | 0 <= k < |InsertSibling(c, s)|
      ensures !HoldsOnlyADirectory(InsertSibling(c, s)[k]) && Folded(InsertSibling(c, s)[k].children)
    {
      InsertSiblingMembers(c, s, InsertSibling(c, s)[k]);
    }
  }

  lemma {:induction false} SortTreeLength(ts: seq<Node>)
    ensures |SortTree(ts)| == |ts|
    ensures |ts| == 1 ==> SortTree(ts)[0].kind == ts[0].kind
  {
    if ts != [] {
      SortTreeLength(ts[1..]);
      InsertSiblingLength(ts[0].(children := SortTree(ts[0].children)), SortTree(ts[1..]));
    }
  }

  lemma {:induction false} InsertSiblingLength(c: Node, s: seq<Node>)
    ensures |InsertSibling(c, s)| == |s| + 1
  {
    if s != [] && Before(s[0], c) {
      InsertSiblingLength(c, s[1..]);
    }
  }

  lemma {:induction false} SortKeepsFolded(ts: seq<Node>)
    requires Folded(ts)
    ensures Folded(SortTree(ts))
    decreases ts
  {
    if ts != [] {
      var c := ts[0].(children := SortTree(ts[0].children));
      SortKeepsFolded(ts[1..]);
      SortKeepsFolded(ts[0].children);
      SortTreeLength(ts[0].children);
      assert !HoldsOnlyADirectory(c);
      assert Folded([c]) by {
        assert [c][0] == c;
      }
      InsertSiblingFolded(c, SortTree(ts[1..]));
    }
  }

  /** In a sound, ordered tree the file rows run in row order. */
  lemma {:induction false} OrderedLeavesAscend(ts: seq<Node>)
    requires Sound(ts) && Ordered(ts)
    ensures RowsAscend(LeafPaths(Leaves(ts)))
    decreases ts
  {
    if ts != [] {
      var first, rest := NodeLeaves(ts[0]), Leaves(ts[1..]);
      OrderedLeavesAscend(ts[1..]);
      if ts[0].kind == Directory {
        OrderedLeavesAscend(ts[0].children);
        UnderAscends(Segments(ts[0]), Leaves(ts[0].children));
      }
      forall x, y | x in first && y in rest
        ensures RowLess(x.path, y.path)
      {
        FirstRowBeforeRest(ts, x, y);
      }
      LeafPathsAppend(first, rest);
      AscendAppend(LeafPaths(first), LeafPaths(rest));
    }
  }

  lemma FirstRowBeforeRest(ts: seq<Node>, x: Leaf, y: Leaf)
    requires Sound(ts) && Ordered(ts) && ts != []
    requires x in NodeLeaves(ts[0]) && y in Leaves(ts[1..])
    ensures RowLess(x.path, y.path)
  {
    LeafMember([ts[0]], x);
    assert Leaves([ts[0]]) == NodeLeaves(ts[0]) + [];
    HasLeafSplit([ts[0]], x);
    LeafMember(ts[1..], y);
    var j :| 0 <= j < |ts[1..]| && NodeHasLeaf(ts[1..][j], y);
    assert ts[1..][j] == ts[j + 1];
    NodeLeafHead(ts[0], x);
    NodeLeafHead(ts[j + 1], y);
    assert Before(ts[0], ts[j + 1]);
  }

  lemma LeafPathsAppend(a: seq<Leaf>, b: seq<Leaf>)
    ensures LeafPaths(a + b) == LeafPaths(a) + LeafPaths(b)
  {
  }

  lemma AscendAppend(a: seq<Path>, b: seq<Path>)
    requires RowsAscend(a) && RowsAscend(b)
    requires forall p, q :: p in a && q in b ==> RowLess(p, q)
    ensures RowsAscend(a + b)
  {
  }

  lemma {:induction false} RowLessBelow(above: Path, p: Path, q: Path)
    requires RowLess(p, q)
    ensures RowLess(above + p, above + q)
  {
    if above == [] {
      assert above + p == p && above + q == q;
    } else {
      RowLessBelow(above[1..], p, q);
      assert (above + p)[1..] == above[1..] + p && (above + q)[1..] == above[1..] + q;
    }
  }

  lemma UnderAscends(above: Path, leaves: seq<Leaf>)
    requires RowsAscend(LeafPaths(leaves))
    ensures RowsAscend(LeafPaths(Under(above, leaves)))
  {
    var before, after := LeafPaths(leaves), LeafPaths(Under(above, leaves));
    forall i, j | 0 <= i < j < |after|
      ensures RowLess(after[i], after[j])
    {
      RowLessBelow(above, before[i], before[j]);
    }
  }

  // ---------- expansion and counts ----------

  lemma {:induction false} ExpandAt(ts: seq<Node>, i: nat)
    requires i < |ts|
    ensures Expand(ts)[i] ==
            if ts[i].kind == File then ts[i]
            else ts[i].(expanded := HasChange(ts[i].children), children := Expand(ts[i].children))
  {
    if i > 0 {
      ExpandAt(ts[1..], i - 1);
    }
  }

  lemma {:induction false} CountAt(ts: seq<Node>, i: nat)
    requires i < |ts|
    ensures Count(ts)[i] ==
            if ts[i].kind == File then ts[i]
            else ts[i].(counts := Total(ts[i].children), children := Count(ts[i].children))
  {
    if i > 0 {
      CountAt(ts[1..], i - 1);
    }
  }

  lemma ExpandKeeps(ts: seq<Node>)
    ensures Leaves(Expand(ts)) == Leaves(ts)
    ensures Sound(ts) ==> Sound(Expand(ts))
    ensures Folded(ts) ==> Folded(Expand(ts))
    ensures Total(Expand(ts)) == Total(ts)
  {
    ExpandKeepsFiles(ts);
    ExpandKeepsShape(ts);
  }

  lemma {:induction false} ExpandKeepsFiles(ts: seq<Node>)
    ensures Leaves(Expand(ts)) == Leaves(ts)
    ensures Total(Expand(ts)) == Total(ts)
    decreases ts
  {
    if ts != [] {
      ExpandKeepsFiles(ts[1..]);
      ExpandKeepsFiles(ts[0].children);
    }
  }

  lemma {:induction false} ExpandKeepsShape(ts: seq<Node>)
    ensures Sound(ts) ==> Sound(Expand(ts))
    ensures Folded(ts) ==> Folded(Expand(ts))
    decreases ts
  {
    forall i | 0 <= i < |ts|
      ensures var c := Expand(ts)[i];
              && Segments(c) == Segments(ts[i]) && c.kind == ts[i].kind
              && |c.children| == |ts[i].children|
              && (HoldsOnlyADirectory(c) ==> HoldsOnlyADirectory(ts[i]))
              && (c.kind == Directory && Sound(ts) ==> Sound(c.children))
              && (Folded(ts) ==> Folded(c.children))
    {
      ExpandAt(ts, i);
      ExpandKeepsShape(ts[i].children);
      if |ts[i].children| == 1 && ts[i].kind == Directory {
        ExpandAt(ts[i].children, 0);
      }
    }
  }

  lemma CountKeeps(ts: seq<Node>)
    ensures Leaves(Count(ts)) == Leaves(ts)
    ensures Sound(ts) ==> Sound(Count(ts))
    ensures Folded(ts) ==> Folded(Count(ts))
    ensures Total(Count(ts)) == Total(ts)
  {
    CountKeepsFiles(ts);
    CountKeepsShape(ts);
  }

  lemma {:induction false} CountKeepsFiles(ts: seq<Node>)
    ensures Leaves(Count(ts)) == Leaves(ts)
    ensures Total(Count(ts)) == Total(ts)
    decreases ts
  {
    if ts != [] {
      CountKeepsFiles(ts[1..]);
      CountKeepsFiles(ts[0].children);
    }
  }

  lemma {:induction false} CountKeepsShape(ts: seq<Node>)
    ensures Sound(ts) ==> Sound(Count(ts))
    ensures Folded(ts) ==> Folded(Count(ts))
    decreases ts
  {
    forall i | 0 <= i < |ts|
      ensures var c := Count(ts)[i];
              && Segments(c) == Segments(ts[i]) && c.kind == ts[i].kind
              && |c.children| == |ts[i].children|
              && (HoldsOnlyADirectory(c) ==> HoldsOnlyADirectory(ts[i]))
              && (c.kind == Directory && Sound(ts) ==> Sound(c.children))
              && (Folded(ts) ==> Folded(c.children))
    {
      CountAt(ts, i);
      CountKeepsShape(ts[i].children);
      if |ts[i].children| == 1 && ts[i].kind == Directory {
        CountAt(ts[i].children, 0);
      }
    }
  }

  lemma CombineAssociative(a: Option<LineCounts>, b: Option<LineCounts>, c: Option<LineCounts>)
    ensures Combine(Combine(a, b), c) == Combine(a, Combine(b, c))
  {
  }
}
