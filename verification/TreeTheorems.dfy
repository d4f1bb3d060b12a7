/** What `build_tree` promises about any answer git can give. */
module TreeTheorems {
  import opened Prelude
  import opened Text
  import opened Paths
  import opened ChangedTree
  import opened ReportedPaths
  import opened TreeRows
  import opened TreePasses

  // ---------- which rows, and in what order ----------

  /** No reported path is a proper prefix of this one. */
  ghost predicate Uncovered(changes: seq<GitFileChange>, path: Path) {
    forall q :: Reported(changes, q) ==> !(q < path)
  }

  ghost predicate PrefixFree(changes: seq<GitFileChange>) {
    forall p :: Reported(changes, p) ==> Uncovered(changes, p)
  }

  /** The file row git's answer calls for at its path. */
  ghost predicate Expected(changes: seq<GitFileChange>, l: Leaf) {
    && Uncovered(changes, l.path)
    && l.badge.Some? && Means(changes, Entry(l.path, l.badge.value, l.counts))
  }

  lemma CollectedPathsNormal(changes: seq<GitFileChange>, e: Entry)
    requires e in Collect(changes)
    ensures NormalPath(e.path)
  {
    CollectMeaning(changes, e);
    var i :| 0 <= i < |changes| && ReportsPath(changes[i], e.path);
    RelativeComponentsArePlain(changes[i].path);
  }

  lemma CollectedAt(changes: seq<GitFileChange>, path: Path) returns (e: Entry)
    requires Reported(changes, path)
    ensures e in Collect(changes) && e.path == path && Means(changes, e)
  {
    ReportsAreReported(changes, path);
    var reports := Reports(changes, path);
    e := Entry(path, BestBadge(reports), FirstCounts(reports));
    MeansComputed(changes, e);
    CollectMeaning(changes, e);
  }

  /** Some report of the path says it changed that way. */
  ghost predicate ReportedAs(changes: seq<GitFileChange>, path: Path, change: FileChange) {
    exists i :: 0 <= i < |changes| && ReportsPath(changes[i], path) && changes[i].change == change
  }

  /** A report among those of a path is a report of the answer. */
  lemma {:induction false} ReportOf(changes: seq<GitFileChange>, path: Path, r: GitFileChange)
    ensures r in Reports(changes, path) <==> r in changes && ReportsPath(r, path)
  {
    if changes != [] {
      var n := |changes| - 1;
      ReportOf(changes[..n], path, r);
      assert changes == changes[..n] + [changes[n]];
    }
  }

  lemma ReportsAt(changes: seq<GitFileChange>, path: Path, change: FileChange)
    ensures (exists r :: r in Reports(changes, path) && r.change == change) <==> ReportedAs(changes, path, change)
  {
    if r :| r in Reports(changes, path) && r.change == change {
      ReportOf(changes, path, r);
      var i :| 0 <= i < |changes| && changes[i] == r;
    }
    if i: nat :| i < |changes| && ReportsPath(changes[i], path) && changes[i].change == change {
      ReportOf(changes, path, changes[i]);
    }
  }

  /** The file rows of the tree are exactly the reported paths no other reported
      path covers, each with its best badge and first counts. */
  lemma FileRows(changes: seq<GitFileChange>)
    ensures Sound(BuildChildren(changes))
    ensures Folded(BuildChildren(changes))
    ensures forall l :: l in Leaves(BuildChildren(changes)) <==> Expected(changes, l)
    ensures RowsAscend(LeafPaths(Leaves(BuildChildren(changes))))
  {
    var entries := Collect(changes);
    CollectSorted(changes);
    forall e | e in entries
      ensures NormalPath(e.path)
    {
      CollectedPathsNormal(changes, e);
    }
    var raw := InsertAll([], entries);
    InsertAllRows(entries);
    MergeKeepsSound(raw);
    MergeKeepsLeaves(raw);
    MergeFolds(raw);
    var merged := MergeChains(raw);
    SortOrders(merged);
    SortKeepsFolded(merged);
    OrderedLeavesAscend(SortTree(merged));
    ExpandKeeps(SortTree(merged));
    CountKeeps(Expand(SortTree(merged)));
    forall l
      ensures l in Leaves(BuildChildren(changes)) <==> Expected(changes, l)
    {
      LeafMember(SortTree(merged), l);
      SortKeepsLeaf(merged, l);
      LeafMember(merged, l);
      LeafMember(raw, l);
      ExpectedIsTopmost(changes, l);
    }
  }

  lemma ExpectedIsTopmost(changes: seq<GitFileChange>, l: Leaf)
    ensures Expected(changes, l) <==> exists e :: Topmost(Collect(changes), e) && l == AsLeaf(e)
  {
    if Expected(changes, l) {
      var e := Entry(l.path, l.badge.value, l.counts);
      CollectMeaning(changes, e);
      forall o | o in Collect(changes)
        ensures !(o.path < e.path)
      {
        CollectMeaning(changes, o);
      }
      assert Topmost(Collect(changes), e) && l == AsLeaf(e);
    }
    if e :| Topmost(Collect(changes), e) && l == AsLeaf(e) {
      CollectMeaning(changes, e);
      forall q | Reported(changes, q)
        ensures !(q < l.path)
      {
        var o := CollectedAt(changes, q);
      }
    }
  }

  /** Which badge a file row has: the file is shown as there when any report says it
      was added, else as gone when any says it was deleted, else as modified. */
  lemma ShownBadge(changes: seq<GitFileChange>, l: Leaf)
    requires l in Leaves(BuildChildren(changes))
    ensures l.badge == Some(Added) <==> ReportedAs(changes, l.path, Added)
    ensures l.badge == Some(Deleted) <==> !ReportedAs(changes, l.path, Added) && ReportedAs(changes, l.path, Deleted)
    ensures l.badge == Some(Modified) <==> !ReportedAs(changes, l.path, Added) && !ReportedAs(changes, l.path, Deleted)
  {
    FileRows(changes);
    ReportsAt(changes, l.path, Added);
    ReportsAt(changes, l.path, Deleted);
  }

  /** Every reported path has a row exactly when none lies below another: a path
      under a reported file is inserted inside that file's node and never shown. */
  lemma EveryPathShownIffPrefixFree(changes: seq<GitFileChange>)
    ensures (forall p :: Reported(changes, p) ==> p in LeafPaths(Leaves(BuildChildren(changes)))) <==>
            PrefixFree(changes)
  {
    FileRows(changes);
    var leaves := Leaves(BuildChildren(changes));
    if PrefixFree(changes) {
      forall p | Reported(changes, p)
        ensures p in LeafPaths(leaves)
      {
        var e := CollectedAt(changes, p);
        assert Expected(changes, AsLeaf(e));
        var i :| 0 <= i < |leaves| && leaves[i] == AsLeaf(e);
        assert LeafPaths(leaves)[i] == p;
      }
    }
    if forall p :: Reported(changes, p) ==> p in LeafPaths(leaves) {
      forall p | Reported(changes, p)
        ensures Uncovered(changes, p)
      {
        var i :| 0 <= i < |leaves| && LeafPaths(leaves)[i] == p;
        assert Expected(changes, leaves[i]);
      }
    }
  }

  lemma TwoReadings()
    ensures RelativeComponents("a") == Some(["a"])
    ensures RelativeComponents("a/b") == Some(["a", "b"])
  {
    var deep := ["a", "b"];
    PlainPathReadsBack(["a"]);
    PlainPathReadsBack(deep);
    assert deep[1..] == ["b"];
    assert Join(deep, '/') == "a" + ['/'] + "b" == "a/b";
  }

  /** The smallest answer that loses a row: a file and a path below it. */
  lemma CoveredPathHasNoRow()
    ensures var changes := [GitFileChange("a", Modified, None), GitFileChange("a/b", Modified, None)];
            Reported(changes, ["a", "b"]) && ["a", "b"] !in LeafPaths(Leaves(BuildChildren(changes)))
  {
    var changes := [GitFileChange("a", Modified, None), GitFileChange("a/b", Modified, None)];
    TwoReadings();
    assert ReportsPath(changes[0], ["a"]) && ReportsPath(changes[1], ["a", "b"]);
    RowPathMember(changes);
    assert Reported(changes, ["a"]) && ["a"] < ["a", "b"];
  }

  /** Leaving changes out of a prefix-free answer only takes rows away: the rest
      keep their order, wherever chains fold. Row for row this needs that no path
      of the smaller answer is covered in the larger one, and nothing else. */
  lemma FewerChangesKeepRowOrder(fewer: seq<GitFileChange>, more: seq<GitFileChange>)
    requires forall p :: Reported(fewer, p) ==> Reported(more, p)
    ensures IsSubsequence(LeafPaths(Leaves(BuildChildren(fewer))), LeafPaths(Leaves(BuildChildren(more)))) <==>
            (forall p :: Reported(fewer, p) && Uncovered(fewer, p) ==> Uncovered(more, p))
    ensures PrefixFree(more) ==>
              IsSubsequence(LeafPaths(Leaves(BuildChildren(fewer))), LeafPaths(Leaves(BuildChildren(more))))
  {
    FileRows(fewer);
    FileRows(more);
    var small, large := LeafPaths(Leaves(BuildChildren(fewer))), LeafPaths(Leaves(BuildChildren(more)));
    RowPathMember(fewer);
    RowPathMember(more);
    if forall p :: Reported(fewer, p) && Uncovered(fewer, p) ==> Uncovered(more, p) {
      AscendingSubset(small, large);
    }
    if IsSubsequence(small, large) {
      forall p | Reported(fewer, p) && Uncovered(fewer, p)
        ensures Uncovered(more, p)
      {
        SubsequenceMembers(small, large, p);
      }
    }
  }

  lemma RowPathMember(changes: seq<GitFileChange>)
    ensures forall p :: p in LeafPaths(Leaves(BuildChildren(changes))) <==>
            Reported(changes, p) && Uncovered(changes, p)
  {
    FileRows(changes);
    var leaves := Leaves(BuildChildren(changes));
    forall p
      ensures p in LeafPaths(leaves) <==> Reported(changes, p) && Uncovered(changes, p)
    {
      if i :| 0 <= i < |leaves| && LeafPaths(leaves)[i] == p {
        assert Expected(changes, leaves[i]);
      }
      if Reported(changes, p) && Uncovered(changes, p) {
        var e := CollectedAt(changes, p);
        assert Expected(changes, AsLeaf(e));
        var i :| 0 <= i < |leaves| && leaves[i] == AsLeaf(e);
        assert LeafPaths(leaves)[i] == p;
      }
    }
  }

  /** The rows and their order are a function of which paths are shown: answers that
      show the same paths show them in the same order. */
  lemma SamePathsSameRows(a: seq<GitFileChange>, b: seq<GitFileChange>)
    requires forall p :: Reported(a, p) && Uncovered(a, p) <==> Reported(b, p) && Uncovered(b, p)
    ensures LeafPaths(Leaves(BuildChildren(a))) == LeafPaths(Leaves(BuildChildren(b)))
  {
    FileRows(a);
    FileRows(b);
    RowPathMember(a);
    RowPathMember(b);
    AscendingUnique(LeafPaths(Leaves(BuildChildren(a))), LeafPaths(Leaves(BuildChildren(b))));
  }
}
