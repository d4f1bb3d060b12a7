/** Rows addressed by the widget's key, a chain of names: what a key resolves
    to, which path it spells, and the counts each directory row shows. */
module TreeKeys {
  import opened Prelude
  import opened Text
  import opened Paths
  import opened ChangedTree
  import opened TreeRows
  import opened TreePasses
  import opened TreeTheorems

  /** `c` is the row the tree draws under `key`. Files have no rows below them. */
  ghost predicate IsRow(ts: seq<Node>, key: seq<string>, c: Node)
    decreases |key|
  {
    key != [] && exists i :: 0 <= i < |ts| && ts[i].name == key[0] && RowIn(ts[i], key, c)
  }

  ghost predicate RowIn(top: Node, key: seq<string>, c: Node)
    requires key != []
    decreases |key|, 0
  {
    if |key| == 1 then c == top else top.kind == Directory && IsRow(top.children, key[1..], c)
  }

  /** The path a key spells once merged names are split. */
  function RowPath(key: seq<string>): Path {
    if key == [] then [] else Split(key[0], '/') + RowPath(key[1..])
  }

  // ---------- node_at ----------

  lemma NamesDiffer(ts: seq<Node>, i: nat, j: nat)
    requires Sound(ts) && i < |ts| && j < |ts| && ts[i].name == ts[j].name
    ensures i == j
  {
  }

  /** Every row is found again by its key. */
  lemma {:induction false} NodeAtFindsRow(node: Node, key: seq<string>, c: Node)
    requires Sound(node.children) && IsRow(node.children, key, c)
    ensures NodeAt(node, key) == Some(c)
    decreases |key|
  {
    var i :| 0 <= i < |node.children| && node.children[i].name == key[0] && RowIn(node.children[i], key, c);
    NamesDiffer(node.children, i, FindName(node.children, key[0]));
    if |key| > 1 {
      NodeAtFindsRow(node.children[i], key[1..], c);
    }
  }

  /** Every file row has a key, which spells the file's path. */
  lemma {:induction false} LeafHasRow(ts: seq<Node>, l: Leaf) returns (key: seq<string>, c: Node)
    requires HasLeaf(ts, l)
    ensures IsRow(ts, key, c) && c.kind == File && RowPath(key) == l.path
    ensures c.badge == l.badge && c.counts == l.counts
    decreases ts
  {
    var i :| 0 <= i < |ts| && NodeHasLeaf(ts[i], l);
    if ts[i].kind == File {
      key, c := [ts[i].name], ts[i];
      assert RowPath(key) == Split(key[0], '/') + RowPath([]);
    } else {
      var inner := l.(path := l.path[|Segments(ts[i])|..]);
      var below, found := LeafHasRow(ts[i].children, inner);
      key, c := [ts[i].name] + below, found;
      assert key[1..] == below;
      assert RowIn(ts[i], key, c);
    }
  }

  /** On the tree `build_tree` returns, looking a file row up by its chain of
      names gives that file back. */
  lemma NodeAtFindsEveryFile(rootName: string, changes: seq<GitFileChange>, l: Leaf) returns (key: seq<string>)
    requires Expected(changes, l)
    ensures RowPath(key) == l.path
    ensures var found := NodeAt(BuildTree(rootName, changes), key);
            found.Some? && found.value.kind == File && found.value.badge == l.badge && found.value.counts == l.counts
  {
    FileRows(changes);
    LeafMember(BuildChildren(changes), l);
    var c;
    key, c := LeafHasRow(BuildChildren(changes), l);
    NodeAtFindsRow(BuildTree(rootName, changes), key, c);
  }

  // ---------- directory rows ----------

  lemma {:induction false} RowShape(ts: seq<Node>, key: seq<string>, c: Node)
    requires IsRow(ts, key, c)
    ensures Sound(ts) && c.kind == Directory ==> c.children != [] && Sound(c.children)
    ensures Folded(ts) ==> !HoldsOnlyADirectory(c)
    decreases |key|
  {
    var i :| 0 <= i < |ts| && ts[i].name == key[0] && RowIn(ts[i], key, c);
    if |key| > 1 {
      RowShape(ts[i].children, key[1..], c);
    }
  }

  /** No directory row has a directory as its only child. */
  lemma NoSingleChildChains(changes: seq<GitFileChange>, key: seq<string>, c: Node)
    requires IsRow(BuildChildren(changes), key, c)
    ensures c.kind == Directory ==> c.children != [] && (|c.children| == 1 ==> c.children[0].kind == File)
  {
    FileRows(changes);
    RowShape(BuildChildren(changes), key, c);
  }

  /** Each directory row is drawn open. */
  lemma {:induction false} RowExpanded(ts: seq<Node>, key: seq<string>, c: Node)
    requires IsRow(Count(Expand(ts)), key, c) && c.kind == Directory
    ensures c.expanded == HasChange(c.children)
    decreases |key|
  {
    var shown := Count(Expand(ts));
    var i :| 0 <= i < |shown| && shown[i].name == key[0] && RowIn(shown[i], key, c);
    CountAt(Expand(ts), i);
    ExpandAt(ts, i);
    if |key| > 1 {
      RowExpanded(ts[i].children, key[1..], c);
    } else {
      PassesKeepChange(ts[i].children);
    }
  }

  lemma {:induction false} PassesKeepChange(ts: seq<Node>)
    ensures HasChange(Count(Expand(ts))) == HasChange(ts)
    decreases ts
  {
    if ts != [] {
      PassesKeepChange(ts[0].children);
      PassesKeepChange(ts[1..]);
    }
  }

  lemma {:induction false} BadgedLeafIsChange(ts: seq<Node>, l: Leaf)
    requires HasLeaf(ts, l) && l.badge.Some?
    ensures HasChange(ts)
    decreases ts
  {
    HasLeafSplit(ts, l);
    if NodeHasLeaf(ts[0], l) {
      if ts[0].kind == Directory {
        BadgedLeafIsChange(ts[0].children, l.(path := l.path[|Segments(ts[0])|..]));
      }
    } else {
      BadgedLeafIsChange(ts[1..], l);
    }
  }

  lemma LeafUnderNode(top: Node, l: Leaf)
    requires top.kind == Directory && HasLeaf(top.children, l)
    ensures NodeHasLeaf(top, l.(path := Segments(top) + l.path))
  {
    var whole := l.(path := Segments(top) + l.path);
    assert whole.path[|Segments(top)|..] == l.path;
    assert whole.(path := l.path) == l;
  }

  /** A file below a row is a file of the tree, at the row's path. */
  lemma {:induction false} LeafOfRow(ts: seq<Node>, key: seq<string>, c: Node, inner: Leaf)
    requires IsRow(ts, key, c) && c.kind == Directory && HasLeaf(c.children, inner)
    ensures HasLeaf(ts, inner.(path := RowPath(key) + inner.path))
    decreases |key|
  {
    var i :| 0 <= i < |ts| && ts[i].name == key[0] && RowIn(ts[i], key, c);
    if |key| > 1 {
      LeafOfRow(ts[i].children, key[1..], c, inner);
      LeafOneUp(ts, i, RowPath(key[1..]), inner);
    } else {
      assert inner.(path := [] + inner.path) == inner;
      LeafOneUp(ts, i, [], inner);
      assert Segments(ts[i]) + [] == RowPath(key);
    }
  }

  lemma LeafOneUp(ts: seq<Node>, i: nat, below: Path, inner: Leaf)
    requires i < |ts| && ts[i].kind == Directory && HasLeaf(ts[i].children, inner.(path := below + inner.path))
    ensures HasLeaf(ts, inner.(path := (Segments(ts[i]) + below) + inner.path))
  {
    LeafUnderNode(ts[i], inner.(path := below + inner.path));
    assert (Segments(ts[i]) + below) + inner.path == Segments(ts[i]) + (below + inner.path);
  }

  /** Every directory row of the tree holds a change, so it is drawn open. */
  lemma DirectoryRowsExpanded(changes: seq<GitFileChange>, key: seq<string>, c: Node)
    requires IsRow(BuildChildren(changes), key, c) && c.kind == Directory
    ensures c.expanded
  {
    FileRows(changes);
    RowShape(BuildChildren(changes), key, c);
    RowExpanded(Rows(changes), key, c);
    var inner := SomeLeaf(c.children);
    LeafOfRow(BuildChildren(changes), key, c, inner);
    LeafMember(BuildChildren(changes), inner.(path := RowPath(key) + inner.path));
    assert Expected(changes, inner.(path := RowPath(key) + inner.path));
    BadgedLeafIsChange(c.children, inner);
  }

  // ---------- directories carry no badge ----------

  ghost predicate Bare(c: Node)
    decreases c
  {
    (c.kind == Directory ==> c.badge == None) && AllBare(c.children)
  }

  ghost predicate AllBare(ts: seq<Node>)
    decreases ts
  {
    forall i :: 0 <= i < |ts| ==> Bare(ts[i])
  }

  lemma AllBareSplit(ts: seq<Node>)
    requires ts != []
    ensures AllBare(ts) <==> Bare(ts[0]) && AllBare(ts[1..])
  {
    assert ts == [ts[0]] + ts[1..];
  }

  lemma AllBareAppend(ts: seq<Node>, c: Node)
    ensures AllBare(ts + [c]) <==> AllBare(ts) && Bare(c)
  {
    assert forall i :: 0 <= i < |ts| ==> (ts + [c])[i] == ts[i];
    assert (ts + [c])[|ts|] == c;
  }

  lemma {:induction false} InsertBare(ts: seq<Node>, path: Path, badge: FileChange, counts: Option<LineCounts>)
    requires AllBare(ts)
    ensures AllBare(Insert(ts, path, badge, counts))
    decreases |path|
  {
    if |path| == 1 {
      AllBareAppend(ts, FileNode(path[0], badge, counts));
    } else if |path| > 1 {
      var i := FindName(ts, path[0]);
      if i < |ts| {
        InsertBare(ts[i].children, path[1..], badge, counts);
      } else {
        InsertBare([], path[1..], badge, counts);
        AllBareAppend(ts, EmptyDirectory(path[0]).(children := Insert([], path[1..], badge, counts)));
      }
    }
  }

  lemma {:induction false} InsertAllBare(entries: seq<Entry>)
    ensures AllBare(InsertAll([], entries))
  {
    if entries != [] {
      var n := |entries| - 1;
      InsertAllBare(entries[..n]);
      InsertBare(InsertAll([], entries[..n]), entries[n].path, entries[n].badge, entries[n].counts);
    }
  }

  lemma AbsorbBare(c: Node)
    requires Bare(c)
    ensures Bare(Absorb(c))
  {
    if HoldsOnlyADirectory(c) {
      assert Bare(c.children[0]);
    }
  }

  lemma {:induction false} MergeBare(ts: seq<Node>)
    requires AllBare(ts)
    ensures AllBare(MergeChains(ts))
    decreases ts
  {
    if ts != [] {
      AllBareSplit(ts);
      MergeBare(ts[0].children);
      MergeBare(ts[1..]);
      AbsorbBare(ts[0].(children := MergeChains(ts[0].children)));
      AllBareSplit(MergeChains(ts));
    }
  }

  lemma {:induction false} SiblingBare(c: Node, sorted: seq<Node>)
    requires Bare(c) && AllBare(sorted)
    ensures AllBare(InsertSibling(c, sorted))
  {
    if sorted != [] && Before(sorted[0], c) {
      AllBareSplit(sorted);
      SiblingBare(c, sorted[1..]);
      AllBareSplit(InsertSibling(c, sorted));
    } else {
      AllBareSplit([c] + sorted);
      assert ([c] + sorted)[1..] == sorted;
    }
  }

  lemma {:induction false} SortBare(ts: seq<Node>)
    requires AllBare(ts)
    ensures AllBare(SortTree(ts))
    decreases ts
  {
    if ts != [] {
      AllBareSplit(ts);
      SortBare(ts[0].children);
      SortBare(ts[1..]);
      SiblingBare(ts[0].(children := SortTree(ts[0].children)), SortTree(ts[1..]));
    }
  }

  lemma {:induction false} ExpandBare(ts: seq<Node>)
    requires AllBare(ts)
    ensures AllBare(Expand(ts))
    decreases ts
  {
    if ts != [] {
      AllBareSplit(ts);
      ExpandBare(ts[0].children);
      ExpandBare(ts[1..]);
      AllBareSplit(Expand(ts));
    }
  }

  lemma {:induction false} CountBare(ts: seq<Node>)
    requires AllBare(ts)
    ensures AllBare(Count(ts))
    decreases ts
  {
    if ts != [] {
      AllBareSplit(ts);
      CountBare(ts[0].children);
      CountBare(ts[1..]);
      AllBareSplit(Count(ts));
    }
  }

  lemma {:induction false} RowBare(ts: seq<Node>, key: seq<string>, c: Node)
    requires AllBare(ts) && IsRow(ts, key, c)
    ensures Bare(c)
    decreases ts
  {
    var i :| 0 <= i < |ts| && ts[i].name == key[0] && RowIn(ts[i], key, c);
    if |key| > 1 {
      RowBare(ts[i].children, key[1..], c);
    }
  }

  /** A directory row says nothing of a change of its own: it has no badge. */
  lemma DirectoryRowsHaveNoBadge(changes: seq<GitFileChange>, key: seq<string>, c: Node)
    requires IsRow(BuildChildren(changes), key, c) && c.kind == Directory
    ensures c.badge == None
  {
    var entries := Collect(changes);
    InsertAllBare(entries);
    MergeBare(InsertAll([], entries));
    SortBare(MergeChains(InsertAll([], entries)));
    ExpandBare(Rows(changes));
    CountBare(Expand(Rows(changes)));
    RowBare(BuildChildren(changes), key, c);
  }

  // ---------- counts ----------

  ghost function AddedSum(leaves: seq<Leaf>): nat {
    if leaves == [] then 0
    else (if leaves[0].counts.Some? then leaves[0].counts.value.added else 0) + AddedSum(leaves[1..])
  }

  ghost function RemovedSum(leaves: seq<Leaf>): nat {
    if leaves == [] then 0
    else (if leaves[0].counts.Some? then leaves[0].counts.value.removed else 0) + RemovedSum(leaves[1..])
  }

  ghost predicate AnyCounted(leaves: seq<Leaf>) {
    exists i :: 0 <= i < |leaves| && leaves[i].counts.Some?
  }

  ghost function Capped(n: nat): Lines {
    if n <= 0xFFFF_FFFF then n else 0xFFFF_FFFF
  }

  /** The exact sums of the files that have counts, capped at `u32::MAX`, or
      nothing when no file has any. */
  ghost function CappedSum(leaves: seq<Leaf>): Option<LineCounts> {
    if AnyCounted(leaves) then Some(LineCounts(Capped(AddedSum(leaves)), Capped(RemovedSum(leaves)))) else None
  }

  lemma CappedSumSplit(leaves: seq<Leaf>)
    requires leaves != []
    ensures CappedSum(leaves) == Combine(leaves[0].counts, CappedSum(leaves[1..]))
  {
    if AnyCounted(leaves) && leaves[0].counts.None? {
      var i :| 0 <= i < |leaves| && leaves[i].counts.Some?;
      assert leaves[1..][i - 1] == leaves[i];
    }
    if AnyCounted(leaves[1..]) {
      var i :| 0 <= i < |leaves[1..]| && leaves[1..][i].counts.Some?;
      assert leaves[i + 1].counts.Some?;
    } else {
      NoneCounted(leaves[1..]);
    }
  }

  lemma {:induction false} NoneCounted(leaves: seq<Leaf>)
    requires !AnyCounted(leaves)
    ensures AddedSum(leaves) == 0 && RemovedSum(leaves) == 0
  {
    if leaves != [] {
      forall i | 0 <= i < |leaves[1..]|
        ensures leaves[1..][i].counts.None?
      {
        assert leaves[1..][i] == leaves[i + 1];
      }
      NoneCounted(leaves[1..]);
    }
  }

  lemma {:induction false} CappedSumAppend(a: seq<Leaf>, b: seq<Leaf>)
    ensures CappedSum(a + b) == Combine(CappedSum(a), CappedSum(b))
  {
    if a == [] {
      assert a + b == b;
    } else {
      CappedSumAppend(a[1..], b);
      CappedSumSplit(a);
      CappedSumSplit(a + b);
      assert (a + b)[1..] == a[1..] + b;
      CombineAssociative(a[0].counts, CappedSum(a[1..]), CappedSum(b));
    }
  }

  lemma {:induction false} CappedSumUnder(above: Path, leaves: seq<Leaf>)
    ensures CappedSum(Under(above, leaves)) == CappedSum(leaves)
  {
    if leaves != [] {
      CappedSumUnder(above, leaves[1..]);
      CappedSumSplit(leaves);
      CappedSumSplit(Under(above, leaves));
    }
  }

  /** The running saturating total is the capped exact sum. */
  lemma {:induction false} TotalIsCappedSum(ts: seq<Node>)
    ensures Total(ts) == CappedSum(Leaves(ts))
    decreases ts
  {
    if ts != [] {
      TotalIsCappedSum(ts[1..]);
      CappedSumAppend(NodeLeaves(ts[0]), Leaves(ts[1..]));
      if ts[0].kind == File {
        CappedSumSplit(NodeLeaves(ts[0]));
      } else {
        TotalIsCappedSum(ts[0].children);
        CappedSumUnder(Segments(ts[0]), Leaves(ts[0].children));
      }
    }
  }

  lemma {:induction false} RowCounts(ts: seq<Node>, key: seq<string>, c: Node)
    requires IsRow(Count(ts), key, c) && c.kind == Directory
    ensures c.counts == CappedSum(Leaves(c.children))
    decreases |key|
  {
    var shown := Count(ts);
    var i :| 0 <= i < |shown| && shown[i].name == key[0] && RowIn(shown[i], key, c);
    CountAt(ts, i);
    if |key| > 1 {
      RowCounts(ts[i].children, key[1..], c);
    } else {
      CountKeeps(ts[i].children);
      TotalIsCappedSum(ts[i].children);
    }
  }

  /** The file rows strictly below a path, in row order. */
  ghost function Below(leaves: seq<Leaf>, path: Path): seq<Leaf> {
    if leaves == [] then []
    else (if path < leaves[0].path then [leaves[0]] else []) + Below(leaves[1..], path)
  }

  lemma {:induction false} BelowAppend(a: seq<Leaf>, b: seq<Leaf>, path: Path)
    ensures Below(a + b, path) == Below(a, path) + Below(b, path)
  {
    if a == [] {
      assert a + b == b;
    } else {
      BelowAppend(a[1..], b, path);
      assert (a + b)[1..] == a[1..] + b;
      var head := if path < a[0].path then [a[0]] else [];
      assert head + (Below(a[1..], path) + Below(b, path)) == (head + Below(a[1..], path)) + Below(b, path);
    }
  }

  lemma {:induction false} BelowUnder(above: Path, leaves: seq<Leaf>, path: Path)
    ensures Below(Under(above, leaves), above + path) == Under(above, Below(leaves, path))
  {
    if leaves != [] {
      BelowUnder(above, leaves[1..], path);
      assert path < leaves[0].path <==> above + path < above + leaves[0].path by {
        assert (above + leaves[0].path)[|above|..] == leaves[0].path && (above + path)[|above|..] == path;
        if above + path < above + leaves[0].path {
          assert path == leaves[0].path[..|path|];
        }
      }
    }
  }

  lemma {:induction false} BelowAll(leaves: seq<Leaf>)
    requires forall i :: 0 <= i < |leaves| ==> leaves[i].path != []
    ensures Below(leaves, []) == leaves
  {
    if leaves != [] {
      BelowAll(leaves[1..]);
    }
  }

  lemma {:induction false} BelowNone(leaves: seq<Leaf>, path: Path)
    requires path != []
    requires forall i :: 0 <= i < |leaves| ==> leaves[i].path != [] && leaves[i].path[0] != path[0]
    ensures Below(leaves, path) == []
  {
    if leaves != [] {
      BelowNone(leaves[1..], path);
    }
  }

  lemma HeadsDiffer(ts: seq<Node>, lo: nat, hi: nat, i: nat, leaves: seq<Leaf>, k: nat)
    requires Sound(ts) && lo <= hi <= |ts| && i < |ts| && !(lo <= i < hi)
    requires leaves == Leaves(ts[lo..hi]) && k < |leaves|
    ensures leaves[k].path != [] && leaves[k].path[0] != Segments(ts[i])[0]
  {
    LeafMember(ts[lo..hi], leaves[k]);
    var j :| 0 <= j < |ts[lo..hi]| && NodeHasLeaf(ts[lo..hi][j], leaves[k]);
    assert ts[lo..hi][j] == ts[lo + j];
    NodeLeafHead(ts[lo + j], leaves[k]);
  }

  lemma {:induction false} LeavesAppend(a: seq<Node>, b: seq<Node>)
    ensures Leaves(a + b) == Leaves(a) + Leaves(b)
  {
    if a == [] {
      assert a + b == b;
    } else {
      var first, middle, last := NodeLeaves(a[0]), Leaves(a[1..]), Leaves(b);
      assert Leaves((a + b)[1..]) == middle + last by {
        LeavesAppend(a[1..], b);
        assert (a + b)[1..] == a[1..] + b;
      }
      assert first + (middle + last) == (first + middle) + last;
    }
  }

  /** Only the row's own siblings' subtree reaches below its path. */
  lemma BelowOneChild(ts: seq<Node>, i: nat, path: Path)
    requires Sound(ts) && i < |ts| && path != [] && path[0] == Segments(ts[i])[0]
    ensures Below(Leaves(ts), path) == Below(NodeLeaves(ts[i]), path)
  {
    var left, right := Leaves(ts[0..i]), Leaves(ts[i + 1..|ts|]);
    assert ts == ts[0..i] + ts[i..] && ts[i..][0] == ts[i] && ts[i..][1..] == ts[i + 1..|ts|];
    LeavesAppend(ts[0..i], ts[i..]);
    forall k | 0 <= k < |left|
      ensures left[k].path != [] && left[k].path[0] != path[0]
    {
      HeadsDiffer(ts, 0, i, i, left, k);
    }
    forall k | 0 <= k < |right|
      ensures right[k].path != [] && right[k].path[0] != path[0]
    {
      HeadsDiffer(ts, i + 1, |ts|, i, right, k);
    }
    BelowNone(left, path);
    BelowNone(right, path);
    BelowAppend(left, Leaves(ts[i..]), path);
    BelowAppend(NodeLeaves(ts[i]), right, path);
  }

  /** The files below a row are exactly the tree's files below the row's path. */
  lemma {:induction false} RowLeaves(ts: seq<Node>, key: seq<string>, c: Node)
    requires Sound(ts) && IsRow(ts, key, c) && c.kind == Directory
    ensures Under(RowPath(key), Leaves(c.children)) == Below(Leaves(ts), RowPath(key))
    decreases |key|
  {
    var i :| 0 <= i < |ts| && ts[i].name == key[0] && RowIn(ts[i], key, c);
    var rest := RowPath(key[1..]);
    BelowOneChild(ts, i, RowPath(key));
    BelowUnder(Segments(ts[i]), Leaves(ts[i].children), rest);
    if |key| > 1 {
      RowLeaves(ts[i].children, key[1..], c);
      UnderUnder(Segments(ts[i]), rest, Leaves(c.children));
    } else {
      forall k | 0 <= k < |Leaves(c.children)|
        ensures Leaves(c.children)[k].path != []
      {
        LeafMember(c.children, Leaves(c.children)[k]);
      }
      BelowAll(Leaves(c.children));
      assert RowPath(key) == Segments(ts[i]);
    }
  }

  /** A directory row counts exactly the shown files below its path: the sums of
      those with counts, capped at `u32::MAX`, and no counts when none has any.
      Which chains folded and how siblings are ordered plays no part. */
  lemma DirectoryCounts(rootName: string, changes: seq<GitFileChange>, key: seq<string>, c: Node)
    requires key == [] ==> c == BuildTree(rootName, changes)
    requires key != [] ==> IsRow(BuildChildren(changes), key, c)
    requires c.kind == Directory
    ensures c.counts == CappedSum(Below(Leaves(BuildChildren(changes)), RowPath(key)))
  {
    FileRows(changes);
    var shown := BuildChildren(changes);
    if key == [] {
      ExpandKeeps(Rows(changes));
      CountKeeps(Expand(Rows(changes)));
      TotalIsCappedSum(Expand(Rows(changes)));
      forall k | 0 <= k < |Leaves(shown)|
        ensures Leaves(shown)[k].path != []
      {
        LeafMember(shown, Leaves(shown)[k]);
      }
      BelowAll(Leaves(shown));
    } else {
      RowCounts(Expand(Rows(changes)), key, c);
      RowLeaves(shown, key, c);
      CappedSumUnder(RowPath(key), Leaves(c.children));
    }
  }
}
