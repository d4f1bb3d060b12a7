/** What the merged map says about git's answer: one binding per reported path,
    with the highest-ranked badge and the first counts any report gave. */
module ReportedPaths {
  import opened Prelude
  import opened Paths
  import opened ChangedTree

  predicate ReportsPath(change: GitFileChange, path: Path) {
    RelativeComponents(change.path) == Some(path)
  }

  /** The reports about one path, in the order git gave them. */
  ghost function Reports(changes: seq<GitFileChange>, path: Path): seq<GitFileChange> {
    if changes == [] then []
    else
      var before := Reports(changes[..|changes| - 1], path);
      var last := changes[|changes| - 1];
      if ReportsPath(last, path) then before + [last] else before
  }

  /** Some accepted report names this path. */
  ghost predicate Reported(changes: seq<GitFileChange>, path: Path) {
    exists i :: 0 <= i < |changes| && ReportsPath(changes[i], path)
  }

  /** The badge of the highest-ranked report. */
  ghost predicate IsBestBadge(reports: seq<GitFileChange>, badge: FileChange) {
    && (exists r :: r in reports && r.change == badge)
    && (forall r :: r in reports ==> Precedence(r.change) <= Precedence(badge))
  }

  /** The counts of the earliest report that carries any. */
  ghost predicate IsFirstCounts(reports: seq<GitFileChange>, counts: Option<LineCounts>) {
    if counts.None? then forall r :: r in reports ==> r.counts.None?
    else exists i :: 0 <= i < |reports| && reports[i].counts == counts
                     && forall j :: 0 <= j < i ==> reports[j].counts.None?
  }

  ghost predicate SortedEntries(entries: seq<Entry>) {
    forall i, j :: 0 <= i < j < |entries| ==> KeyLess(entries[i].path, entries[j].path)
  }

  lemma {:induction false} ReportsAreReported(changes: seq<GitFileChange>, path: Path)
    ensures Reports(changes, path) != [] <==> Reported(changes, path)
    ensures forall r :: r in Reports(changes, path) ==> r in changes && ReportsPath(r, path)
  {
    if changes != [] {
      var n := |changes| - 1;
      ReportsAreReported(changes[..n], path);
      if Reported(changes[..n], path) {
        var i :| 0 <= i < n && ReportsPath(changes[..n][i], path);
        assert ReportsPath(changes[i], path);
      }
      if Reported(changes, path) && !ReportsPath(changes[n], path) {
        var i :| 0 <= i < |changes| && ReportsPath(changes[i], path);
        assert changes[..n][i] == changes[i];
      }
    }
  }

  lemma {:induction false} UpsertMeaning(entries: seq<Entry>, path: Path, change: FileChange,
                                         counts: Option<LineCounts>, e: Entry)
    requires SortedEntries(entries)
    ensures e.path != path ==> (e in Upsert(entries, path, change, counts) <==> e in entries)
    ensures e.path == path ==>
              (e in Upsert(entries, path, change, counts) <==>
               if exists o :: o in entries && o.path == path
               then exists o :: o in entries && o.path == path && e == Merged(o, change, counts)
               else e == Entry(path, change, counts))
  {
    if entries == [] {
    } else if entries[0].path == path {
      assert entries == [entries[0]] + entries[1..];
      forall o | o in entries[1..]
        ensures o.path != path
      {
        var i :| 0 <= i < |entries[1..]| && entries[1..][i] == o;
        assert KeyLess(entries[0].path, entries[i + 1].path);
        KeyIrreflexive(path);
      }
    } else if KeyLess(path, entries[0].path) {
      forall o | o in entries
        ensures o.path != path
      {
        var i :| 0 <= i < |entries| && entries[i] == o;
        KeyIrreflexive(path);
        if i > 0 {
          KeyTransitive(path, entries[0].path, o.path);
        }
      }
    } else {
      assert SortedEntries(entries[1..]);
      UpsertMeaning(entries[1..], path, change, counts, e);
      assert entries == [entries[0]] + entries[1..];
      assert forall o :: o in entries <==> o == entries[0] || o in entries[1..];
    }
  }

  ghost function Merged(o: Entry, change: FileChange, counts: Option<LineCounts>): Entry {
    Entry(o.path, if Precedence(change) > Precedence(o.badge) then change else o.badge, OrElse(o.counts, counts))
  }

  lemma {:induction false} UpsertKeepsOrder(entries: seq<Entry>, path: Path,
                                            change: FileChange, counts: Option<LineCounts>)
    requires SortedEntries(entries)
    ensures SortedEntries(Upsert(entries, path, change, counts))
  {
    if entries != [] {
      if entries[0].path == path {
      } else if KeyLess(path, entries[0].path) {
        forall i | 0 <= i < |entries|
          ensures KeyLess(path, entries[i].path)
        {
          if i > 0 {
            KeyTransitive(path, entries[0].path, entries[i].path);
          }
        }
      } else {
        KeyTotal(path, entries[0].path);
        assert SortedEntries(entries[1..]);
        UpsertKeepsOrder(entries[1..], path, change, counts);
        var rest := Upsert(entries[1..], path, change, counts);
        forall e | e in rest
          ensures KeyLess(entries[0].path, e.path)
        {
          UpsertMeaning(entries[1..], path, change, counts, e);
          if e.path != path {
            var i :| 0 <= i < |entries[1..]| && entries[1..][i] == e;
            assert entries[i + 1] == e;
          }
        }
      }
    }
  }

  /** The badge and counts a running merge arrives at. */
  ghost function BestBadge(reports: seq<GitFileChange>): FileChange
    requires reports != []
  {
    var last := reports[|reports| - 1];
    if |reports| == 1 then last.change
    else
      var best := BestBadge(reports[..|reports| - 1]);
      if Precedence(last.change) > Precedence(best) then last.change else best
  }

  ghost function FirstCounts(reports: seq<GitFileChange>): Option<LineCounts> {
    if reports == [] then None
    else OrElse(FirstCounts(reports[..|reports| - 1]), reports[|reports| - 1].counts)
  }

  lemma {:induction false} BestBadgeIsBest(reports: seq<GitFileChange>, badge: FileChange)
    requires reports != []
    ensures IsBestBadge(reports, badge) <==> badge == BestBadge(reports)
  {
    var n := |reports| - 1;
    assert reports[n] in reports;
    assert IsBestBadge(reports, BestBadge(reports)) by {
      if n > 0 {
        BestBadgeIsBest(reports[..n], BestBadge(reports[..n]));
        assert forall r :: r in reports <==> r in reports[..n] || r == reports[n];
      }
    }
  }

  lemma {:induction false} FirstCountsIsFirst(reports: seq<GitFileChange>, counts: Option<LineCounts>)
    ensures IsFirstCounts(reports, counts) <==> counts == FirstCounts(reports)
  {
    if reports != [] {
      var n := |reports| - 1;
      var before := reports[..n];
      FirstCountsIsFirst(before, FirstCounts(before));
      assert forall i :: 0 <= i < n ==> before[i] == reports[i];
      assert reports[n] in reports;
      assert forall r :: r in reports <==> r in before || r == reports[n];
      assert IsFirstCounts(reports, FirstCounts(reports));
      if IsFirstCounts(reports, counts) && counts != FirstCounts(reports) {
        FirstCountsUnique(reports, counts, FirstCounts(reports));
      }
    }
  }

  lemma FirstCountsUnique(reports: seq<GitFileChange>, a: Option<LineCounts>, b: Option<LineCounts>)
    requires IsFirstCounts(reports, a) && IsFirstCounts(reports, b)
    ensures a == b
  {
    if a.Some? && b.Some? {
      var i :| 0 <= i < |reports| && reports[i].counts == a && forall j :: 0 <= j < i ==> reports[j].counts.None?;
      var k :| 0 <= k < |reports| && reports[k].counts == b && forall j :: 0 <= j < k ==> reports[j].counts.None?;
    }
  }

  /** What a binding of the map means. */
  ghost predicate Means(changes: seq<GitFileChange>, e: Entry) {
    var reports := Reports(changes, e.path);
    Reported(changes, e.path) && IsBestBadge(reports, e.badge) && IsFirstCounts(reports, e.counts)
  }

  lemma MeansComputed(changes: seq<GitFileChange>, e: Entry)
    ensures Means(changes, e) <==>
            var reports := Reports(changes, e.path);
            reports != [] && e == Entry(e.path, BestBadge(reports), FirstCounts(reports))
  {
    ReportsAreReported(changes, e.path);
    if Reports(changes, e.path) != [] {
      BestBadgeIsBest(Reports(changes, e.path), e.badge);
      FirstCountsIsFirst(Reports(changes, e.path), e.counts);
    }
  }

  lemma {:induction false} CollectSorted(changes: seq<GitFileChange>)
    ensures SortedEntries(Collect(changes))
  {
    if changes != [] {
      var n := |changes| - 1;
      CollectSorted(changes[..n]);
      match RelativeComponents(changes[n].path)
      case None =>
      case Some(path) => UpsertKeepsOrder(Collect(changes[..n]), path, changes[n].change, changes[n].counts);
    }
  }

  /** The map holds exactly the reported paths, each with the badge no report
      outranks and the counts of the first report that has some. */
  lemma {:induction false} CollectMeaning(changes: seq<GitFileChange>, e: Entry)
    ensures e in Collect(changes) <==> Means(changes, e)
  {
    MeansComputed(changes, e);
    if changes != [] {
      var n := |changes| - 1;
      var before, last := changes[..n], changes[n];
      CollectSorted(before);
      match RelativeComponents(last.path)
      case None =>
        CollectMeaning(before, e);
        MeansComputed(before, e);
      case Some(path) =>
        UpsertMeaning(Collect(before), path, last.change, last.counts, e);
        if e.path != path {
          CollectMeaning(before, e);
          MeansComputed(before, e);
        } else {
          forall o: Entry | o.path == path
            ensures o in Collect(before) <==>
                    var reports := Reports(before, path);
                    reports != [] && o == Entry(path, BestBadge(reports), FirstCounts(reports))
          {
            CollectMeaning(before, o);
            MeansComputed(before, o);
          }
          var reports := Reports(before, path);
          assert Reports(changes, path) == reports + [last];
          assert (reports + [last])[..|reports|] == reports;
          if reports != [] {
            assert Entry(path, BestBadge(reports), FirstCounts(reports)) in Collect(before);
          }
        }
    }
  }
}
