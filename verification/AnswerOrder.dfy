/** What the order of git's answer can and cannot change in the tree. */
module AnswerOrder {
  import opened Prelude
  import opened Paths
  import opened ChangedTree
  import opened ReportedPaths
  import opened TreePasses
  import opened TreeTheorems

  // ---------- the same reports in another order ----------

  lemma SameReports(a: seq<GitFileChange>, b: seq<GitFileChange>, path: Path)
    requires multiset(a) == multiset(b)
    ensures forall r :: r in a <==> r in b
    ensures forall r :: r in Reports(a, path) <==> r in Reports(b, path)
  {
    forall r
      ensures r in a <==> r in b
    {
      assert r in a <==> r in multiset(a);
      assert r in b <==> r in multiset(b);
    }
    forall r
      ensures r in Reports(a, path) <==> r in Reports(b, path)
    {
      ReportOf(a, path, r);
      ReportOf(b, path, r);
    }
  }

  lemma ReportedMembers(a: seq<GitFileChange>, b: seq<GitFileChange>, p: Path)
    requires multiset(a) == multiset(b)
    ensures Reported(a, p) ==> Reported(b, p)
  {
    if i :| 0 <= i < |a| && ReportsPath(a[i], p) {
      assert a[i] in multiset(b);
      var k :| 0 <= k < |b| && b[k] == a[i];
    }
  }

  lemma SamePathsShown(a: seq<GitFileChange>, b: seq<GitFileChange>)
    requires multiset(a) == multiset(b)
    ensures forall p :: Reported(a, p) <==> Reported(b, p)
    ensures forall p :: Uncovered(a, p) <==> Uncovered(b, p)
  {
    forall p
      ensures Reported(a, p) <==> Reported(b, p)
    {
      ReportedMembers(a, b, p);
      ReportedMembers(b, a, p);
    }
  }

  // ---------- badges ----------

  /** The rows with their badges. */
  ghost function Badged(leaves: seq<Leaf>): seq<(Path, Option<FileChange>)> {
    seq(|leaves|, i requires 0 <= i < |leaves| => (leaves[i].path, leaves[i].badge))
  }

  /** Which query ran first cannot change a badge, whatever counts the reports
      carry: the rows, their order and their badges are the same. */
  lemma BadgesIgnoreOrder(a: seq<GitFileChange>, b: seq<GitFileChange>)
    requires multiset(a) == multiset(b)
    ensures Badged(Leaves(BuildChildren(a))) == Badged(Leaves(BuildChildren(b)))
  {
    var la, lb := Leaves(BuildChildren(a)), Leaves(BuildChildren(b));
    SamePathsShown(a, b);
    SamePathsSameRows(a, b);
    FileRows(a);
    FileRows(b);
    assert |la| == |lb| by {
      assert |LeafPaths(la)| == |la| && |LeafPaths(lb)| == |lb|;
    }
    forall i | 0 <= i < |la|
      ensures la[i].path == lb[i].path && la[i].badge == lb[i].badge
    {
      assert LeafPaths(la)[i] == LeafPaths(lb)[i];
      assert Expected(a, la[i]) && Expected(b, lb[i]);
      SameReports(a, b, la[i].path);
      assert IsBestBadge(Reports(a, la[i].path), lb[i].badge.value);
      BestBadgeIsBest(Reports(a, la[i].path), la[i].badge.value);
      BestBadgeIsBest(Reports(a, la[i].path), lb[i].badge.value);
    }
  }

  // ---------- counts ----------

  /** The reports of this path agree on its counts, those that carry any. */
  ghost predicate CountsAgreeAt(changes: seq<GitFileChange>, path: Path) {
    forall r, s | r in changes && s in changes && ReportsPath(r, path) && ReportsPath(s, path) ::
      r.counts.Some? && s.counts.Some? ==> r.counts == s.counts
  }

  /** The reports of every path do. */
  ghost predicate CountsAgree(changes: seq<GitFileChange>) {
    forall path :: CountsAgreeAt(changes, path)
  }

  /** The reports of every path with a row of its own do. */
  ghost predicate ShownCountsAgree(changes: seq<GitFileChange>) {
    forall path :: Uncovered(changes, path) ==> CountsAgreeAt(changes, path)
  }

  /** With agreeing counts the first counts are simply the counts. */
  lemma AgreedCounts(changes: seq<GitFileChange>, path: Path, counts: Option<LineCounts>)
    requires CountsAgreeAt(changes, path)
    ensures IsFirstCounts(Reports(changes, path), counts) <==>
            if counts.None? then forall r :: r in changes && ReportsPath(r, path) ==> r.counts.None?
            else exists r :: r in changes && ReportsPath(r, path) && r.counts == counts
  {
    var reports := Reports(changes, path);
    forall r
      ensures r in reports <==> r in changes && ReportsPath(r, path)
    {
      ReportOf(changes, path, r);
    }
    FirstCountsIsFirst(reports, FirstCounts(reports));
    FirstCountsIsFirst(reports, counts);
    if counts.Some? && exists r :: r in changes && ReportsPath(r, path) && r.counts == counts {
      var r :| r in changes && ReportsPath(r, path) && r.counts == counts;
      assert FirstCounts(reports).Some?;
      var i :| 0 <= i < |reports| && reports[i].counts == FirstCounts(reports);
      assert reports[i] in reports;
    }
  }

  lemma MeansPermuted(a: seq<GitFileChange>, b: seq<GitFileChange>, e: Entry)
    requires multiset(a) == multiset(b) && CountsAgreeAt(a, e.path)
    ensures Means(a, e) ==> Means(b, e)
  {
    SameReports(a, b, e.path);
    SamePathsShown(a, b);
    AgreedCounts(a, e.path, e.counts);
    AgreedCounts(b, e.path, e.counts);
  }

  lemma {:induction false} SortedEntriesUnique(a: seq<Entry>, b: seq<Entry>)
    requires SortedEntries(a) && SortedEntries(b)
    requires forall e :: e in a <==> e in b
    ensures a == b
  {
    assert b != [] ==> b[0] in b;
    if a != [] {
      assert a[0] in b && b[0] in a;
      if a[0] != b[0] {
        var i :| 0 <= i < |b| && b[i] == a[0];
        var j :| 0 <= j < |a| && a[j] == b[0];
        KeyTransitive(a[0].path, b[0].path, a[0].path);
        KeyIrreflexive(a[0].path);
      }
      forall e
        ensures e in a[1..] <==> e in b[1..]
      {
        SortedTail(a, e);
        SortedTail(b, e);
      }
      SortedEntriesUnique(a[1..], b[1..]);
      assert a == [a[0]] + a[1..] && b == [b[0]] + b[1..];
    }
  }

  lemma SortedTail(a: seq<Entry>, e: Entry)
    requires SortedEntries(a) && a != []
    ensures e in a[1..] <==> e in a && e != a[0]
  {
    KeyIrreflexive(e.path);
    if e in a[1..] {
      var i :| 0 <= i < |a[1..]| && a[1..][i] == e;
      assert KeyLess(a[0].path, a[i + 1].path);
    }
  }

  /** Answers that report the same things about every path give one tree. */
  lemma SameMeaningSameTree(rootName: string, a: seq<GitFileChange>, b: seq<GitFileChange>)
    requires forall e :: Means(a, e) <==> Means(b, e)
    ensures BuildTree(rootName, a) == BuildTree(rootName, b)
  {
    CollectSorted(a);
    CollectSorted(b);
    forall e
      ensures e in Collect(a) <==> e in Collect(b)
    {
      CollectMeaning(a, e);
      CollectMeaning(b, e);
    }
    SortedEntriesUnique(Collect(a), Collect(b));
  }

  /** Nor anything else, as long as the reports of one path do not carry two
      different counts: permuted answers give one tree. */
  lemma OrderDoesNotMatter(rootName: string, a: seq<GitFileChange>, b: seq<GitFileChange>)
    requires multiset(a) == multiset(b)
    requires CountsAgree(a)
    ensures BuildTree(rootName, a) == BuildTree(rootName, b)
  {
    forall e
      ensures Means(a, e) <==> Means(b, e)
    {
      SameReports(a, b, e.path);
      assert CountsAgreeAt(a, e.path);
      MeansPermuted(a, b, e);
      MeansPermuted(b, a, e);
    }
    SameMeaningSameTree(rootName, a, b);
  }

  /** Rows in ascending order that are all among others on the same paths are
      those others. */
  lemma RowsByPath(a: seq<Leaf>, b: seq<Leaf>)
    requires LeafPaths(a) == LeafPaths(b) && RowsAscend(LeafPaths(b))
    requires forall l :: l in a ==> l in b
    ensures a == b
  {
    assert |LeafPaths(a)| == |a| && |LeafPaths(b)| == |b|;
    forall i | 0 <= i < |a|
      ensures a[i] == b[i]
    {
      assert a[i] in b;
      var j :| 0 <= j < |b| && b[j] == a[i];
      assert LeafPaths(a)[i] == a[i].path && LeafPaths(b)[j] == b[j].path && LeafPaths(b)[i] == b[i].path;
      RowIrreflexive(b[i].path);
    }
  }

  /** The rows need less: only the paths with a row of their own must agree. */
  lemma ShownRowsPermuted(a: seq<GitFileChange>, b: seq<GitFileChange>)
    requires multiset(a) == multiset(b) && ShownCountsAgree(a)
    ensures Leaves(BuildChildren(a)) == Leaves(BuildChildren(b))
  {
    var la, lb := Leaves(BuildChildren(a)), Leaves(BuildChildren(b));
    SamePathsShown(a, b);
    SamePathsSameRows(a, b);
    FileRows(a);
    FileRows(b);
    forall l | l in la
      ensures l in lb
    {
      assert Expected(a, l);
      assert CountsAgreeAt(a, l.path);
      MeansPermuted(a, b, Entry(l.path, l.badge.value, l.counts));
      assert Expected(b, l);
    }
    RowsByPath(la, lb);
  }

  /** The rows git's answer shows, with their badges and counts, are the same in
      whatever order it comes exactly when no two reports of a path with a row of
      its own carry different counts. */
  lemma RowsIgnoreOrderIff(changes: seq<GitFileChange>)
    ensures (forall other :: multiset(other) == multiset(changes) ==>
                               Leaves(BuildChildren(other)) == Leaves(BuildChildren(changes)))
            <==> ShownCountsAgree(changes)
  {
    if ShownCountsAgree(changes) {
      forall other | multiset(other) == multiset(changes)
        ensures Leaves(BuildChildren(other)) == Leaves(BuildChildren(changes))
      {
        ShownRowsPermuted(changes, other);
      }
    } else {
      var path :| Uncovered(changes, path) && !CountsAgreeAt(changes, path);
      var other := OrderMatters(changes, path);
    }
  }

  /** When two reports of such a path do, the order that moves to the front the
      one whose counts are not shown gives other rows. */
  lemma OrderMatters(changes: seq<GitFileChange>, path: Path) returns (other: seq<GitFileChange>)
    requires Uncovered(changes, path) && !CountsAgreeAt(changes, path)
    ensures multiset(other) == multiset(changes)
    ensures Leaves(BuildChildren(other)) != Leaves(BuildChildren(changes))
  {
    var r, s :| r in changes && s in changes && ReportsPath(r, path) && ReportsPath(s, path)
                && r.counts.Some? && s.counts.Some? && r.counts != s.counts;
    var i :| 0 <= i < |changes| && changes[i] == r;
    var j :| 0 <= j < |changes| && changes[j] == s;
    assert Reported(changes, path);
    var e := CollectedAt(changes, path);
    other := ToFront(changes, if r.counts == e.counts then j else i);
    FrontCountsShown(changes, other, path, e);
  }

  ghost function ToFront<T>(xs: seq<T>, k: nat): (r: seq<T>)
    requires k < |xs|
    ensures r != [] && r[0] == xs[k] && multiset(r) == multiset(xs)
  {
    assert xs == xs[..k] + [xs[k]] + xs[k + 1..];
    [xs[k]] + xs[..k] + xs[k + 1..]
  }

  lemma FrontCountsShown(changes: seq<GitFileChange>, other: seq<GitFileChange>, path: Path, e: Entry)
    requires Uncovered(changes, path) && multiset(other) == multiset(changes)
    requires other != [] && ReportsPath(other[0], path) && other[0].counts.Some?
    requires Means(changes, e) && e.path == path && e.counts != other[0].counts
    ensures Leaves(BuildChildren(other)) != Leaves(BuildChildren(changes))
  {
    SamePathsShown(other, changes);
    FirstReportWins(other, path);
    var o := CollectedAt(other, path);
    MeansComputed(other, o);
    MeansComputed(changes, e);
    MeansComputed(changes, o);
    FileRows(changes);
    FileRows(other);
    assert Expected(other, AsLeaf(o));
    assert AsLeaf(o) in Leaves(BuildChildren(other));
    assert AsLeaf(o) !in Leaves(BuildChildren(changes));
  }

  lemma {:induction false} FirstReportWins(changes: seq<GitFileChange>, path: Path)
    requires changes != [] && ReportsPath(changes[0], path) && changes[0].counts.Some?
    ensures FirstCounts(Reports(changes, path)) == changes[0].counts
  {
    var n := |changes| - 1;
    var before := Reports(changes[..n], path);
    assert (before + [changes[n]])[..|before|] == before;
    if n > 0 {
      FirstReportWins(changes[..n], path);
    }
  }
}
