/** The memory of manual collapses (`RenderState`'s expansion half): which rows a
    rebuild opens, which collapses it forgets, and what a key press records. */
module Expansion {
  import opened Text
  import opened Paths
  import opened ChangedTree
  import opened ReportedPaths
  import opened TreeRows
  import opened TreeTheorems
  import opened TreeKeys

  type Key = seq<string>

  /** `above` extended by one, two, ... of the segments. */
  function Extensions(above: Path, segments: seq<string>): seq<Path>
    decreases segments
  {
    if segments == [] then []
    else [above + [segments[0]]] + Extensions(above + [segments[0]], segments[1..])
  }

  /** `represented_paths`: the row's own path, last, and before it every path of
      a directory its merged name absorbed. */
  function RepresentedPaths(key: Key): seq<Path> {
    if key == [] then []
    else
      var n := |key| - 1;
      Extensions(RowPath(key[..n]), Split(key[n], '/'))
  }

  lemma {:induction false} ExtensionsMember(above: Path, segments: seq<string>, p: Path)
    ensures p in Extensions(above, segments) <==> |above| < |p| && p <= above + segments
    decreases segments
  {
    if segments != [] {
      var next := above + [segments[0]];
      ExtensionsMember(next, segments[1..], p);
      assert next + segments[1..] == above + segments;
      if p <= above + segments && |p| == |above| + 1 {
        assert p == (above + segments)[..|p|] == next;
      }
      assert next <= above + segments;
    } else {
      assert above + segments == above;
    }
  }

  lemma RowPathCons(name: string, key: Key)
    ensures RowPath([name] + key) == Split(name, '/') + RowPath(key)
  {
    assert ([name] + key)[1..] == key;
  }

  lemma Associative(x: Path, y: Path, z: Path)
    ensures x + (y + z) == (x + y) + z
  {
  }

  lemma {:induction false} RowPathAppend(a: Key, b: Key)
    ensures RowPath(a + b) == RowPath(a) + RowPath(b)
  {
    if a == [] {
      assert a + b == b;
    } else {
      var name, tail := a[0], a[1..];
      RowPathAppend(tail, b);
      RowPathCons(name, tail);
      RowPathCons(name, tail + b);
      assert a == [name] + tail && a + b == [name] + (tail + b);
      Associative(Split(name, '/'), RowPath(tail), RowPath(b));
    }
  }

  lemma RowPathOfOne(name: string)
    ensures RowPath([name]) == Split(name, '/')
  {
    assert RowPath([name]) == Split(name, '/') + RowPath([name][1..]);
  }

  /** A row stands for the paths longer than its parent's and up to its own. */
  lemma RepresentedMember(key: Key, p: Path)
    requires key != []
    ensures p in RepresentedPaths(key) <==> |RowPath(key[..|key| - 1])| < |p| && p <= RowPath(key)
    ensures RowPath(key[..|key| - 1]) < RowPath(key)
  {
    var n := |key| - 1;
    assert key == key[..n] + [key[n]];
    RowPathAppend(key[..n], [key[n]]);
    RowPathOfOne(key[n]);
    ExtensionsMember(RowPath(key[..n]), Split(key[n], '/'), p);
  }

  lemma RepresentedBelow(name: string, key: Key, p: Path)
    requires key != []
    ensures Split(name, '/') + p in RepresentedPaths([name] + key) <==> p in RepresentedPaths(key)
  {
    var segments, whole := Split(name, '/'), [name] + key;
    assert whole[..|whole| - 1] == [name] + key[..|key| - 1];
    RowPathAppend([name], key);
    RowPathAppend([name], key[..|key| - 1]);
    RowPathOfOne(name);
    RepresentedMember(whole, segments + p);
    RepresentedMember(key, p);
    assert segments + p <= segments + RowPath(key) <==> p <= RowPath(key) by {
      assert (segments + p)[|segments|..] == p && (segments + RowPath(key))[|segments|..] == RowPath(key);
      if segments + p <= segments + RowPath(key) {
        assert p == RowPath(key)[..|p|];
      }
    }
  }

  // ---------- the paths the rows stand for ----------

  ghost predicate StandsFor(ts: seq<Node>, key: Key, c: Node, p: Path) {
    IsRow(ts, key, c) && c.kind == Directory && p in RepresentedPaths(key)
  }

  lemma RowPathAboveFile(ts: seq<Node>, key: Key, c: Node) returns (l: Leaf)
    requires Sound(ts) && IsRow(ts, key, c) && c.kind == Directory
    ensures HasLeaf(ts, l) && RowPath(key) < l.path
  {
    RowShape(ts, key, c);
    var inner := SomeLeaf(c.children);
    LeafOfRow(ts, key, c, inner);
    l := inner.(path := RowPath(key) + inner.path);
  }

  lemma {:induction false} RowAbovePath(ts: seq<Node>, p: Path, l: Leaf) returns (key: Key, c: Node)
    requires Sound(ts) && p != [] && HasLeaf(ts, l) && p < l.path
    ensures StandsFor(ts, key, c, p)
    decreases ts
  {
    var i :| 0 <= i < |ts| && NodeHasLeaf(ts[i], l);
    var segments := Segments(ts[i]);
    if |p| <= |segments| {
      key, c := [ts[i].name], ts[i];
      RepresentedMember(key, p);
      RowPathOfOne(ts[i].name);
      assert RowPath(key[..0]) == [];
      assert p == l.path[..|p|] == segments[..|p|];
      assert RowIn(ts[i], key, c);
    } else {
      var inner := l.(path := l.path[|segments|..]);
      var rest := p[|segments|..];
      assert p == segments + rest;
      var below;
      below, c := RowAbovePath(ts[i].children, rest, inner);
      key := [ts[i].name] + below;
      assert key[1..] == below;
      assert RowIn(ts[i], key, c);
      RepresentedBelow(ts[i].name, below, rest);
    }
  }

  /** A directory of the answer: a non-empty proper prefix of a reported path. */
  ghost predicate ChangedDirectory(changes: seq<GitFileChange>, p: Path) {
    p != [] && exists q :: Reported(changes, q) && p < q
  }

  /** The same for the paths that have a row. */
  ghost predicate ShownDirectory(changes: seq<GitFileChange>, p: Path) {
    p != [] && exists q :: Reported(changes, q) && Uncovered(changes, q) && p < q
  }

  lemma RowStandsForShown(changes: seq<GitFileChange>, key: Key, c: Node, p: Path)
    requires StandsFor(BuildChildren(changes), key, c, p)
    ensures ShownDirectory(changes, p)
  {
    FileRows(changes);
    var ts := BuildChildren(changes);
    var l := RowPathAboveFile(ts, key, c);
    LeafMember(ts, l);
    RepresentedMember(key, p);
    assert Expected(changes, l) && p < l.path;
  }

  lemma ShownHasRow(changes: seq<GitFileChange>, p: Path) returns (key: Key, c: Node)
    requires ShownDirectory(changes, p)
    ensures StandsFor(BuildChildren(changes), key, c, p)
  {
    FileRows(changes);
    RowPathMember(changes);
    var ts := BuildChildren(changes);
    var q :| Reported(changes, q) && Uncovered(changes, q) && p < q;
    var i :| 0 <= i < |Leaves(ts)| && LeafPaths(Leaves(ts))[i] == q;
    LeafMember(ts, Leaves(ts)[i]);
    key, c := RowAbovePath(ts, p, Leaves(ts)[i]);
  }

  /** All rows together stand for the directories of the shown paths: which
      chains folded cannot be read off the union. */
  lemma RowsStandForShownDirectories(changes: seq<GitFileChange>, p: Path)
    ensures (exists key, c :: StandsFor(BuildChildren(changes), key, c, p)) <==> ShownDirectory(changes, p)
  {
    if key, c :| StandsFor(BuildChildren(changes), key, c, p) {
      RowStandsForShown(changes, key, c, p);
    }
    if ShownDirectory(changes, p) {
      var key, c := ShownHasRow(changes, p);
    }
  }

  /** For a prefix-free answer those are all its directories; a covered path
      always leaves one out, namely the file that covers it. */
  lemma RowsStandForEveryDirectoryIffPrefixFree(changes: seq<GitFileChange>)
    ensures (forall p ::
               (exists key, c :: StandsFor(BuildChildren(changes), key, c, p)) <==> ChangedDirectory(changes, p))
            <==> PrefixFree(changes)
  {
    if PrefixFree(changes) {
      forall p
        ensures (exists key, c :: StandsFor(BuildChildren(changes), key, c, p)) <==> ChangedDirectory(changes, p)
      {
        RowsStandForShownDirectories(changes, p);
      }
    } else {
      var q :| Reported(changes, q) && !Uncovered(changes, q);
      var o :| Reported(changes, o) && o < q;
      var top := TopmostReport(changes, o);
      RowsStandForShownDirectories(changes, top);
      assert ChangedDirectory(changes, top);
      assert !ShownDirectory(changes, top);
    }
  }

  lemma {:induction false} TopmostReport(changes: seq<GitFileChange>, p: Path) returns (top: Path)
    requires Reported(changes, p)
    ensures Reported(changes, top) && Uncovered(changes, top) && top <= p && top != []
    decreases |p|
  {
    var e := CollectedAt(changes, p);
    CollectedPathsNormal(changes, e);
    if o :| Reported(changes, o) && o < p {
      top := TopmostReport(changes, o);
    } else {
      top := p;
    }
  }

  // ---------- what a rebuild opens and forgets ----------

  function ToSet(paths: seq<Path>): set<Path> {
    set p | p in paths
  }

  /** Keys of the expanded directory rows that stand for no collapsed path. */
  function OpenKeys(ts: seq<Node>, above: Key, collapsed: set<Path>): set<Key>
    decreases ts
  {
    if ts == [] then {}
    else
      var key := above + [ts[0].name];
      (if ts[0].kind == Directory then
         (if ts[0].expanded && ToSet(RepresentedPaths(key)) !! collapsed then {key} else {})
         + OpenKeys(ts[0].children, key, collapsed)
       else {})
      + OpenKeys(ts[1..], above, collapsed)
  }

  function StoodFor(ts: seq<Node>, above: Key): set<Path>
    decreases ts
  {
    if ts == [] then {}
    else
      var key := above + [ts[0].name];
      (if ts[0].kind == Directory then ToSet(RepresentedPaths(key)) + StoodFor(ts[0].children, key) else {})
      + StoodFor(ts[1..], above)
  }

  lemma IsRowSplit(ts: seq<Node>, key: Key, c: Node)
    requires ts != [] && key != []
    ensures IsRow(ts, key, c) <==> (ts[0].name == key[0] && RowIn(ts[0], key, c)) || IsRow(ts[1..], key, c)
  {
    if IsRow(ts, key, c) && !(ts[0].name == key[0] && RowIn(ts[0], key, c)) {
      var i :| 0 <= i < |ts| && ts[i].name == key[0] && RowIn(ts[i], key, c);
      assert ts[1..][i - 1] == ts[i];
    }
    if IsRow(ts[1..], key, c) {
      var i :| 0 <= i < |ts[1..]| && ts[1..][i].name == key[0] && RowIn(ts[1..][i], key, c);
      assert ts[i + 1] == ts[1..][i];
    }
  }

  ghost predicate Opens(ts: seq<Node>, above: Key, key: Key, c: Node, collapsed: set<Path>) {
    IsRow(ts, key, c) && c.kind == Directory && c.expanded && ToSet(RepresentedPaths(above + key)) !! collapsed
  }

  lemma {:induction false} OpenKeysFromRow(ts: seq<Node>, above: Key, key: Key, c: Node, collapsed: set<Path>)
    requires Opens(ts, above, key, c, collapsed)
    ensures above + key in OpenKeys(ts, above, collapsed)
    decreases ts
  {
    IsRowSplit(ts, key, c);
    if ts[0].name == key[0] && RowIn(ts[0], key, c) {
      if |key| == 1 {
        assert above + key == above + [ts[0].name];
      } else {
        assert above + key == (above + [ts[0].name]) + key[1..];
        OpenKeysFromRow(ts[0].children, above + [ts[0].name], key[1..], c, collapsed);
      }
    } else {
      OpenKeysFromRow(ts[1..], above, key, c, collapsed);
    }
  }

  lemma {:induction false} OpenKeysToRow(ts: seq<Node>, above: Key, full: Key, collapsed: set<Path>)
    returns (key: Key, c: Node)
    requires full in OpenKeys(ts, above, collapsed)
    ensures full == above + key && Opens(ts, above, key, c, collapsed)
    decreases ts
  {
    var here := above + [ts[0].name];
    if full in OpenKeys(ts[1..], above, collapsed) {
      key, c := OpenKeysToRow(ts[1..], above, full, collapsed);
      IsRowSplit(ts, key, c);
    } else if full in OpenKeys(ts[0].children, here, collapsed) {
      var below;
      below, c := OpenKeysToRow(ts[0].children, here, full, collapsed);
      key := [ts[0].name] + below;
      assert key[1..] == below && here + below == above + key;
      assert RowIn(ts[0], key, c);
    } else {
      key, c := [ts[0].name], ts[0];
      assert RowIn(ts[0], key, c);
    }
  }

  lemma {:induction false} StoodForFromRow(ts: seq<Node>, above: Key, key: Key, c: Node, p: Path)
    requires IsRow(ts, key, c) && c.kind == Directory && p in RepresentedPaths(above + key)
    ensures p in StoodFor(ts, above)
    decreases ts
  {
    IsRowSplit(ts, key, c);
    if ts[0].name == key[0] && RowIn(ts[0], key, c) {
      if |key| == 1 {
        assert above + key == above + [ts[0].name];
      } else {
        assert above + key == (above + [ts[0].name]) + key[1..];
        StoodForFromRow(ts[0].children, above + [ts[0].name], key[1..], c, p);
      }
    } else {
      StoodForFromRow(ts[1..], above, key, c, p);
    }
  }

  lemma {:induction false} StoodForToRow(ts: seq<Node>, above: Key, p: Path) returns (key: Key, c: Node)
    requires p in StoodFor(ts, above)
    ensures IsRow(ts, key, c) && c.kind == Directory && p in RepresentedPaths(above + key)
    decreases ts
  {
    var here := above + [ts[0].name];
    if p in StoodFor(ts[1..], above) {
      key, c := StoodForToRow(ts[1..], above, p);
      IsRowSplit(ts, key, c);
    } else if p in ToSet(RepresentedPaths(here)) {
      key, c := [ts[0].name], ts[0];
      assert RowIn(ts[0], key, c);
    } else {
      var below;
      below, c := StoodForToRow(ts[0].children, here, p);
      key := [ts[0].name] + below;
      assert key[1..] == below && here + below == above + key;
      assert RowIn(ts[0], key, c);
    }
  }

  /** A rebuild opens exactly the directory rows that stand for no collapsed path. */
  lemma RebuildOpens(changes: seq<GitFileChange>, collapsed: set<Path>, key: Key)
    ensures key in OpenKeys(BuildChildren(changes), [], collapsed) <==>
            exists c :: IsRow(BuildChildren(changes), key, c) && c.kind == Directory
                        && forall p :: p in RepresentedPaths(key) ==> p !in collapsed
  {
    var ts := BuildChildren(changes);
    if key in OpenKeys(ts, [], collapsed) {
      var k, c := OpenKeysToRow(ts, [], key, collapsed);
      assert [] + k == k;
      forall p | p in RepresentedPaths(key)
        ensures p !in collapsed
      {
        assert p in ToSet(RepresentedPaths(key));
      }
    }
    if c :| IsRow(ts, key, c) && c.kind == Directory && forall p :: p in RepresentedPaths(key) ==> p !in collapsed {
      DirectoryRowsExpanded(changes, key, c);
      assert [] + key == key;
      OpenKeysFromRow(ts, [], key, c, collapsed);
    }
  }

  /** A rebuild keeps exactly the collapses of directories that still hold a
      shown change. */
  lemma RebuildKeeps(changes: seq<GitFileChange>, p: Path)
    ensures p in StoodFor(BuildChildren(changes), []) <==> ShownDirectory(changes, p)
  {
    var ts := BuildChildren(changes);
    RowsStandForShownDirectories(changes, p);
    if p in StoodFor(ts, []) {
      var key, c := StoodForToRow(ts, [], p);
      assert [] + key == key;
      assert StandsFor(ts, key, c, p);
    }
    if key, c :| StandsFor(ts, key, c, p) {
      assert [] + key == key;
      StoodForFromRow(ts, [], key, c, p);
    }
  }

  // ---------- the state ----------

  /** The row of a key stands for the path: longer than its parent row's, up to its own. */
  ghost predicate Stands(key: Key, p: Path) {
    key != [] && |RowPath(key[..|key| - 1])| < |p| && p <= RowPath(key)
  }

  /** A press closed the row of exactly this path. */
  ghost predicate ClosedAt(before: set<Key>, after: set<Key>, p: Path) {
    exists key :: key in before && key !in after && p == RowPath(key)
  }

  /** A press opened a row that stands for the path. */
  ghost predicate OpenedOver(before: set<Key>, after: set<Key>, p: Path) {
    exists key :: key in after && key !in before && Stands(key, p)
  }

  /** Paths of the rows a press closed, and all paths the rows it opened stand for. */
  function ClosedPaths(before: set<Key>, after: set<Key>): set<Path> {
    set k | k in before - after :: RowPath(k)
  }

  function OpenedPaths(before: set<Key>, after: set<Key>): set<Path> {
    set k, p | k in after - before && p in RepresentedPaths(k) :: p
  }

  lemma PressMeaning(before: set<Key>, after: set<Key>, p: Path)
    ensures p in ClosedPaths(before, after) <==> ClosedAt(before, after, p)
    ensures p in OpenedPaths(before, after) <==> OpenedOver(before, after, p)
  {
    forall key | key != []
      ensures p in RepresentedPaths(key) <==> Stands(key, p)
    {
      RepresentedMember(key, p);
    }
  }

  class RenderState {
    /** The tree widget's open set. */
    var openRows: set<Key>
    var userCollapsed: set<Path>

    constructor ()
      ensures openRows == {} && userCollapsed == {}
    {
      openRows, userCollapsed := {}, {};
    }

    /** `sync_expansion_at`: opens rows and gathers what every row stands for. */
    method SyncExpansionAt(children: seq<Node>, above: Key, seen: set<Path>) returns (represented: set<Path>)
      modifies this`openRows
      ensures openRows == old(openRows) + OpenKeys(children, above, userCollapsed)
      ensures represented == seen + StoodFor(children, above)
      decreases children
    {
      represented := seen;
      for i := 0 to |children|
        invariant openRows + OpenKeys(children[i..], above, userCollapsed)
               == old(openRows) + OpenKeys(children, above, userCollapsed)
        invariant represented + StoodFor(children[i..], above) == seen + StoodFor(children, above)
      {
        var child := children[i];
        assert children[i..][0] == child && children[i..][1..] == children[i + 1..];
        if child.kind == Directory {
          var key := above + [child.name];
          var standsFor := ToSet(RepresentedPaths(key));
          if child.expanded && standsFor !! userCollapsed {
            openRows := openRows + {key};
          }
          represented := SyncExpansionAt(child.children, key, represented + standsFor);
        }
      }
    }

    /** `sync_expansion`: run on every rebuild. */
    method SyncExpansion(root: Node)
      modifies this
      ensures openRows == old(openRows) + OpenKeys(root.children, [], old(userCollapsed))
      ensures userCollapsed == old(userCollapsed) * StoodFor(root.children, [])
    {
      var represented := SyncExpansionAt(root.children, [], {});
      userCollapsed := userCollapsed * represented;
    }

    /** `adopt_tree`: an unchanged tree re-syncs nothing. */
    method AdoptTree(rebuilt: Node, shown: Node) returns (tree: Node)
      modifies this
      ensures tree == rebuilt
      ensures rebuilt == shown ==> openRows == old(openRows) && userCollapsed == old(userCollapsed)
      ensures rebuilt != shown ==>
                && openRows == old(openRows) + OpenKeys(rebuilt.children, [], old(userCollapsed))
                && userCollapsed == old(userCollapsed) * StoodFor(rebuilt.children, [])
    {
      tree := shown;
      if rebuilt == shown {
        return;
      }
      tree := rebuilt;
      SyncExpansion(tree);
    }

    /** `absorb_manual_expansion`: a close records the row's own path, an open
        clears every path the row stands for. */
    method AbsorbManualExpansion(before: set<Key>)
      modifies this`userCollapsed
      ensures forall p :: p in userCollapsed <==>
                (p in old(userCollapsed) || ClosedAt(before, openRows, p)) && !OpenedOver(before, openRows, p)
    {
      forall p
        ensures p in ClosedPaths(before, openRows) <==> ClosedAt(before, openRows, p)
        ensures p in OpenedPaths(before, openRows) <==> OpenedOver(before, openRows, p)
      {
        PressMeaning(before, openRows, p);
      }
      if before == openRows {
        return;
      }
      userCollapsed := userCollapsed + ClosedPaths(before, openRows);
      userCollapsed := userCollapsed - OpenedPaths(before, openRows);
    }
  }

  // ---------- whole runs ----------

  /** What moves the memory: a rebuild that is adopted, or a key press between
      two open sets. */
  datatype Event = Rebuilt(changes: seq<GitFileChange>) | Pressed(before: set<Key>, after: set<Key>)

  ghost function Collapsed(events: seq<Event>): set<Path> {
    if events == [] then {}
    else
      var n := |events| - 1;
      match events[n]
      case Rebuilt(changes) => Collapsed(events[..n]) * StoodFor(BuildChildren(changes), [])
      case Pressed(before, after) => Collapsed(events[..n]) + ClosedPaths(before, after) - OpenedPaths(before, after)
  }

  ghost predicate Closes(e: Event, p: Path) {
    e.Pressed? && ClosedAt(e.before, e.after, p) && !OpenedOver(e.before, e.after, p)
  }

  /** The event leaves a collapse of `p` standing. */
  ghost predicate Keeps(e: Event, p: Path) {
    match e
    case Rebuilt(changes) => ShownDirectory(changes, p)
    case Pressed(before, after) => !OpenedOver(before, after, p)
  }

  ghost predicate ClosedSince(events: seq<Event>, i: nat, p: Path)
    requires i < |events|
  {
    Closes(events[i], p) && forall j :: i < j < |events| ==> Keeps(events[j], p)
  }

  lemma CollapsedStep(events: seq<Event>, p: Path)
    requires events != []
    ensures var n := |events| - 1;
            p in Collapsed(events) <==> Closes(events[n], p) || (p in Collapsed(events[..n]) && Keeps(events[n], p))
  {
    var last := events[|events| - 1];
    if last.Rebuilt? {
      RebuildKeeps(last.changes, p);
    } else {
      PressMeaning(last.before, last.after, p);
    }
  }

  lemma ClosedSinceStep(events: seq<Event>, i: nat, p: Path)
    requires i + 1 < |events|
    ensures var n := |events| - 1;
            ClosedSince(events, i, p) <==> ClosedSince(events[..n], i, p) && Keeps(events[n], p)
  {
    var n := |events| - 1;
    assert forall j :: 0 <= j < n ==> events[..n][j] == events[j];
  }

  /** Over any run, a directory is remembered as collapsed exactly when some press
      closed it and since then no press opened a row standing for it and every
      rebuild still held a shown change below it. How its row was named or merged
      in between does not enter. */
  lemma {:induction false} CollapseMemory(events: seq<Event>, p: Path)
    ensures p in Collapsed(events) <==> exists i :: 0 <= i < |events| && ClosedSince(events, i, p)
  {
    if events != [] {
      var n := |events| - 1;
      CollapseMemory(events[..n], p);
      CollapsedStep(events, p);
      forall i | 0 <= i < n
        ensures ClosedSince(events, i, p) <==> ClosedSince(events[..n], i, p) && Keeps(events[n], p)
      {
        ClosedSinceStep(events, i, p);
      }
      assert ClosedSince(events, n, p) <==> Closes(events[n], p);
    }
  }
}
