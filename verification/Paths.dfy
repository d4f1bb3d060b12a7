/** Repository-relative paths as git reports them and as `Path::components`
    reads them, with the two orders the changed-file tree uses: the key order of
    its map and the order of its rows. */
module Paths {
  import opened Prelude
  import opened Text

  /** A path below the pane root, one name per component. */
  type Path = seq<string>

  predicate NormalSegment(s: string) {
    s != "" && s != "." && s != ".." && Lacks(s, '/')
  }

  predicate NormalPath(p: Path) {
    p != [] && forall s :: s in p ==> NormalSegment(s)
  }

  /** `Path::components` skips repeated separators and interior `.`. */
  function DropSkipped(segments: seq<string>): seq<string> {
    if segments == [] then []
    else if segments[0] == "" || segments[0] == "." then DropSkipped(segments[1..])
    else [segments[0]] + DropSkipped(segments[1..])
  }

  /** `relative_components`: the components of a plain path below the root, or
      nothing for a rooted path, a leading `.`, any `..`, or an empty path. */
  function RelativeComponents(path: string): Option<Path> {
    var segments := Split(path, '/');
    var kept := DropSkipped(segments);
    if (path != "" && path[0] == '/') || segments[0] == "." || ".." in kept || kept == [] then None
    else Some(kept)
  }

  lemma {:induction false} DropSkippedKeepsNormal(segments: seq<string>)
    requires forall s :: s in segments ==> NormalSegment(s)
    ensures DropSkipped(segments) == segments
  {
    if segments != [] {
      assert segments[0] in segments;
      DropSkippedKeepsNormal(segments[1..]);
      assert [segments[0]] + segments[1..] == segments;
    }
  }

  lemma {:induction false} DropSkippedMembers(segments: seq<string>, s: string)
    ensures s in DropSkipped(segments) <==> s in segments && s != "" && s != "."
  {
    if segments != [] {
      DropSkippedMembers(segments[1..], s);
      assert s in segments <==> s == segments[0] || s in segments[1..];
    }
  }

  lemma {:induction false} NothingKeptIff(segments: seq<string>)
    ensures DropSkipped(segments) == [] <==> forall s :: s in segments ==> s == "" || s == "."
  {
    if segments != [] {
      NothingKeptIff(segments[1..]);
      assert segments[0] in segments;
      forall s | s in segments
        ensures s == segments[0] || s in segments[1..]
      {
      }
      assert forall s :: s in segments[1..] ==> s in segments;
    }
  }

  /** The guard refuses exactly a rooted path, one with a leading `.`, one with `..`
      anywhere, and one that names nothing; whatever it accepts has only plain
      components. */
  lemma RelativeComponentsArePlain(path: string)
    ensures var segments := Split(path, '/');
            RelativeComponents(path).None? <==>
            || (path != "" && path[0] == '/')
            || segments[0] == "."
            || ".." in segments
            || forall s :: s in segments ==> s == "" || s == "."
    ensures RelativeComponents(path).Some? ==> NormalPath(RelativeComponents(path).value)
  {
    DropSkippedMembers(Split(path, '/'), "..");
    NothingKeptIff(Split(path, '/'));
    if RelativeComponents(path).Some? {
      var kept := RelativeComponents(path).value;
      forall s | s in kept
        ensures NormalSegment(s)
      {
        DropSkippedMembers(Split(path, '/'), s);
        var i :| 0 <= i < |Split(path, '/')| && Split(path, '/')[i] == s;
        SplitPiecesLack(path, '/', i);
      }
    }
  }

  /** A plain path written out with separators reads back as itself. */
  lemma PlainPathReadsBack(p: Path)
    requires NormalPath(p)
    ensures RelativeComponents(Join(p, '/')) == Some(p)
  {
    SplitJoin(p, '/');
    DropSkippedKeepsNormal(p);
    var path := Join(p, '/');
    assert p[0] in p;
    assert path[0] == p[0][0];
  }

  lemma {:induction false} DropSkippedAppend(a: seq<string>, b: seq<string>)
    ensures DropSkipped(a + b) == DropSkipped(a) + DropSkipped(b)
  {
    if a == [] {
      assert a + b == b;
    } else {
      DropSkippedAppend(a[1..], b);
      assert (a + b)[0] == a[0] && (a + b)[1..] == a[1..] + b;
    }
  }

  lemma SegmentsOf(segments: seq<string>)
    requires segments != [] && segments[0] != "" && forall s :: s in segments ==> Lacks(s, '/')
    ensures Split(Join(segments, '/'), '/') == segments
    ensures Join(segments, '/') != "" && Join(segments, '/')[0] != '/'
  {
    SplitJoin(segments, '/');
    assert segments[0] in segments;
    assert segments[0][0] in segments[0];
    assert Join(segments, '/')[0] == segments[0][0];
  }

  /** Past the first component, a doubled separator and a `.` are not seen: with the
      plain paths, which read back as themselves, that says what every path reads as. */
  lemma SkippedSegmentsUnseen(a: seq<string>, skipped: string, b: seq<string>)
    requires a != [] && a[0] != "" && forall s :: s in a + b ==> Lacks(s, '/')
    requires skipped == "" || skipped == "."
    ensures RelativeComponents(Join(a + [skipped] + b, '/')) == RelativeComponents(Join(a + b, '/'))
  {
    assert Lacks(skipped, '/');
    assert forall s :: s in a + [skipped] + b ==> s in a + b || s == skipped;
    SegmentsOf(a + [skipped] + b);
    SegmentsOf(a + b);
    DropSkippedAppend(a + [skipped], b);
    DropSkippedAppend(a, [skipped]);
    DropSkippedAppend(a, b);
    assert DropSkipped([skipped]) == [] && DropSkipped(a) + [] == DropSkipped(a);
    assert (a + [skipped] + b)[0] == a[0] == (a + b)[0];
  }

  /** Order of `Vec<OsString>` keys: component by component, a prefix first. */
  predicate KeyLess(p: Path, q: Path) {
    q != [] && (p == [] || Less(p[0], q[0]) || (p[0] == q[0] && KeyLess(p[1..], q[1..])))
  }

  lemma {:induction false} KeyTotal(p: Path, q: Path)
    ensures p == q || KeyLess(p, q) || KeyLess(q, p)
  {
    if p != [] && q != [] {
      LessTotal(p[0], q[0]);
      if p[0] == q[0] {
        KeyTotal(p[1..], q[1..]);
        assert p == [p[0]] + p[1..] && q == [q[0]] + q[1..];
      }
    }
  }

  lemma {:induction false} KeyTransitive(p: Path, q: Path, r: Path)
    requires KeyLess(p, q) && KeyLess(q, r)
    ensures KeyLess(p, r)
  {
    if p != [] {
      if Less(p[0], q[0]) && Less(q[0], r[0]) {
        LessTransitive(p[0], q[0], r[0]);
      } else if p[0] == q[0] && q[0] == r[0] && !Less(p[0], q[0]) {
        LessIrreflexive(p[0]);
        KeyTransitive(p[1..], q[1..], r[1..]);
      }
    }
  }

  lemma {:induction false} KeyIrreflexive(p: Path)
    ensures !KeyLess(p, p)
  {
    if p != [] {
      LessIrreflexive(p[0]);
      KeyIrreflexive(p[1..]);
    }
  }

  /** A path comes before everything below it. */
  lemma {:induction false} PrefixKeyLess(p: Path, q: Path)
    requires p < q
    ensures KeyLess(p, q)
  {
    if p != [] {
      PrefixKeyLess(p[1..], q[1..]);
    }
  }

  /** The order of two rows: at the first component where they differ, a file
      (the last component of its path) comes before a directory, and otherwise
      the names decide. */
  predicate RowLess(p: Path, q: Path) {
    p != [] && q != [] &&
    if (|p| == 1) != (|q| == 1) then |p| == 1
    else if p[0] != q[0] then Less(p[0], q[0])
    else |p| > 1 && RowLess(p[1..], q[1..])
  }

  lemma {:induction false} RowIrreflexive(p: Path)
    ensures !RowLess(p, p)
  {
    if |p| > 1 {
      RowIrreflexive(p[1..]);
    }
  }

  lemma {:induction false} RowTransitive(p: Path, q: Path, r: Path)
    requires RowLess(p, q) && RowLess(q, r)
    ensures RowLess(p, r)
  {
    if (|p| == 1) == (|r| == 1) {
      assert (|q| == 1) == (|p| == 1);
      if p[0] != q[0] && q[0] != r[0] {
        LessTransitive(p[0], q[0], r[0]);
        LessIrreflexive(p[0]);
      } else if p[0] == q[0] && q[0] == r[0] {
        RowTransitive(p[1..], q[1..], r[1..]);
      }
    }
  }

  /** Every strictly ascending list of rows holds each path at most once. */
  predicate RowsAscend(paths: seq<Path>) {
    forall i, j :: 0 <= i < j < |paths| ==> RowLess(paths[i], paths[j])
  }

  /** `small` can be had from `large` by leaving paths out. */
  predicate IsSubsequence<T(==)>(small: seq<T>, large: seq<T>) {
    small == [] ||
    (large != [] && if small[0] == large[0] then IsSubsequence(small[1..], large[1..])
                    else IsSubsequence(small, large[1..]))
  }

  lemma {:induction false} AscendingSubset(small: seq<Path>, large: seq<Path>)
    requires RowsAscend(small) && RowsAscend(large)
    requires forall p :: p in small ==> p in large
    ensures IsSubsequence(small, large)
  {
    if small != [] {
      assert small[0] in small;
      if small[0] == large[0] {
        forall p | p in small[1..]
          ensures p in large[1..]
        {
          AscendingTailMember(small, p);
          assert p in large;
        }
        AscendingSubset(small[1..], large[1..]);
      } else {
        forall p | p in small
          ensures p in large[1..]
        {
          var k :| 0 <= k < |small| && small[k] == p;
          assert p in large;
          if p == large[0] {
            var i :| 1 <= i < |large| && large[i] == small[0];
            assert RowLess(large[0], small[0]);
            assert RowLess(small[0], p);
            RowTransitive(small[0], p, small[0]);
            RowIrreflexive(small[0]);
          }
        }
        AscendingSubset(small, large[1..]);
      }
    }
  }

  lemma AscendingTailMember(paths: seq<Path>, p: Path)
    requires RowsAscend(paths) && paths != [] && p in paths[1..]
    ensures p != paths[0] && RowLess(paths[0], p)
  {
    var i :| 0 <= i < |paths[1..]| && paths[1..][i] == p;
    assert paths[i + 1] == p;
    RowIrreflexive(p);
  }

  lemma {:induction false} SubsequenceMembers<T>(small: seq<T>, large: seq<T>, x: T)
    requires IsSubsequence(small, large) && x in small
    ensures x in large
  {
    if small[0] == large[0] {
      if x != small[0] {
        assert x in small[1..];
        SubsequenceMembers(small[1..], large[1..], x);
      }
    } else {
      SubsequenceMembers(small, large[1..], x);
    }
  }

  /** Ascending lists over the same paths are the same list. */
  lemma {:induction false} AscendingUnique(a: seq<Path>, b: seq<Path>)
    requires RowsAscend(a) && RowsAscend(b)
    requires forall p :: p in a <==> p in b
    ensures a == b
  {
    assert b != [] ==> b[0] in b;
    if a != [] {
      assert a[0] in a && a[0] in b;
      assert b[0] in b && b[0] in a;
      if a[0] != b[0] {
        AscendingTailMember(a, b[0]);
        AscendingTailMember(b, a[0]);
        RowTransitive(a[0], b[0], a[0]);
        RowIrreflexive(a[0]);
      }
      forall p
        ensures p in a[1..] <==> p in b[1..]
      {
        if p in a[1..] { AscendingTailMember(a, p); assert p in a; }
        if p in b[1..] { AscendingTailMember(b, p); assert p in b; }
      }
      AscendingUnique(a[1..], b[1..]);
      assert a == [a[0]] + a[1..] && b == [b[0]] + b[1..];
    }
  }
}
