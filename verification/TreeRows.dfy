/** Which file rows a tree has, and what inserting a path does to them. */
module TreeRows {
  import opened Prelude
  import opened Text
  import opened Paths
  import opened ChangedTree

  /** Siblings differ in their first component; a file's name is one component
      and a directory holds something. What a file node holds is never shown,
      so nothing is asked of it. */
  ghost predicate Sound(ts: seq<Node>)
    decreases ts
  {
    && (forall i, j :: 0 <= i < j < |ts| ==> Segments(ts[i])[0] != Segments(ts[j])[0])
    && (forall i :: 0 <= i < |ts| ==>
          if ts[i].kind == File then |Segments(ts[i])| == 1
          else ts[i].children != [] && Sound(ts[i].children))
  }

  /** Before chains are folded every name is one component. */
  ghost predicate Unmerged(ts: seq<Node>)
    decreases ts
  {
    forall i :: 0 <= i < |ts| ==>
      Lacks(ts[i].name, '/') && (ts[i].kind == Directory ==> Unmerged(ts[i].children))
  }

  // ---------- membership ----------

  ghost predicate NodeHasLeaf(c: Node, l: Leaf)
    decreases c, 1
  {
    if c.kind == File then l == Leaf(Segments(c), c.badge, c.counts)
    else Segments(c) <= l.path && HasLeaf(c.children, l.(path := l.path[|Segments(c)|..]))
  }

  ghost predicate HasLeaf(ts: seq<Node>, l: Leaf)
    decreases ts, 0
  {
    exists i :: 0 <= i < |ts| && NodeHasLeaf(ts[i], l)
  }

  lemma UnderMember(above: Path, leaves: seq<Leaf>, l: Leaf)
    ensures l in Under(above, leaves) <==>
            above <= l.path && l.(path := l.path[|above|..]) in leaves
  {
    var r := Under(above, leaves);
    if l in r {
      var i :| 0 <= i < |r| && r[i] == l;
      assert (above + leaves[i].path)[|above|..] == leaves[i].path;
    }
    if above <= l.path && l.(path := l.path[|above|..]) in leaves {
      var i :| 0 <= i < |leaves| && leaves[i] == l.(path := l.path[|above|..]);
      assert above + l.path[|above|..] == l.path;
      assert r[i] == l;
    }
  }

  lemma {:induction false} LeafMember(ts: seq<Node>, l: Leaf)
    ensures l in Leaves(ts) <==> HasLeaf(ts, l)
    decreases ts
  {
    if ts != [] {
      LeafMember(ts[1..], l);
      if ts[0].kind == Directory {
        UnderMember(Segments(ts[0]), Leaves(ts[0].children), l);
        if Segments(ts[0]) <= l.path {
          LeafMember(ts[0].children, l.(path := l.path[|Segments(ts[0])|..]));
        }
      }
      HasLeafSplit(ts, l);
    }
  }

  lemma HasLeafSplit(ts: seq<Node>, l: Leaf)
    requires ts != []
    ensures HasLeaf(ts, l) <==> NodeHasLeaf(ts[0], l) || HasLeaf(ts[1..], l)
  {
    if HasLeaf(ts, l) && !NodeHasLeaf(ts[0], l) {
      var i :| 0 <= i < |ts| && NodeHasLeaf(ts[i], l);
      assert ts[1..][i - 1] == ts[i];
    }
    if HasLeaf(ts[1..], l) {
      var i :| 0 <= i < |ts[1..]| && NodeHasLeaf(ts[1..][i], l);
      assert ts[i + 1] == ts[1..][i];
    }
  }

  /** A leaf's path starts with the first component of the row it is under, and
      is longer than one component exactly below a directory. */
  lemma NodeLeafHead(c: Node, l: Leaf)
    requires NodeHasLeaf(c, l)
    requires c.kind == File ==> |Segments(c)| == 1
    ensures l.path != [] && l.path[0] == Segments(c)[0]
    ensures c.kind == File <==> |l.path| == 1
  {
    if c.kind == Directory {
      var inner := l.(path := l.path[|Segments(c)|..]);
      LeafNonEmpty(c.children, inner);
    }
  }

  lemma LeafNonEmpty(ts: seq<Node>, l: Leaf)
    requires HasLeaf(ts, l)
    ensures l.path != []
  {
  }

  /** No directory is empty, so a forest with a row has a file row. */
  lemma {:induction false} SomeLeaf(ts: seq<Node>) returns (l: Leaf)
    requires Sound(ts) && ts != []
    ensures HasLeaf(ts, l)
    decreases ts
  {
    if ts[0].kind == File {
      l := Leaf(Segments(ts[0]), ts[0].badge, ts[0].counts);
      assert NodeHasLeaf(ts[0], l);
    } else {
      var inner := SomeLeaf(ts[0].children);
      l := inner.(path := Segments(ts[0]) + inner.path);
      assert l.path[|Segments(ts[0])|..] == inner.path;
      assert l.(path := inner.path) == inner;
      assert NodeHasLeaf(ts[0], l);
    }
  }

  // ---------- inserting ----------

  /** Some file row sits on a proper prefix of `path`: inserting there lands
      inside a file node and shows nothing. */
  ghost predicate Blocked(ts: seq<Node>, path: Path)
    decreases |path|
  {
    |path| >= 2 &&
    var i := FindName(ts, path[0]);
    i < |ts| && (ts[i].kind == File || Blocked(ts[i].children, path[1..]))
  }

  /** No row sits at or below `path`. */
  ghost predicate Vacant(ts: seq<Node>, path: Path) {
    forall l :: HasLeaf(ts, l) ==> !(path <= l.path)
  }

  lemma SegmentsOfPlain(c: Node)
    requires Lacks(c.name, '/')
    ensures Segments(c) == [c.name]
  {
    SplitOfPlain(c.name, '/');
  }

  lemma {:induction false} BlockingRow(ts: seq<Node>, path: Path) returns (m: Leaf)
    requires Unmerged(ts) && Sound(ts)
    requires Blocked(ts, path)
    ensures HasLeaf(ts, m) && m.path < path
    decreases |path|
  {
    var i := FindName(ts, path[0]);
    SegmentsOfPlain(ts[i]);
    if ts[i].kind == File {
      m := Leaf([path[0]], ts[i].badge, ts[i].counts);
    } else {
      var inner := BlockingRow(ts[i].children, path[1..]);
      m := inner.(path := [path[0]] + inner.path);
      assert m.path[1..] == inner.path && m.(path := inner.path) == inner;
    }
    assert NodeHasLeaf(ts[i], m);
  }

  lemma {:induction false} RowBlocks(ts: seq<Node>, path: Path, m: Leaf)
    requires Unmerged(ts) && Sound(ts)
    requires HasLeaf(ts, m) && m.path < path
    ensures Blocked(ts, path)
    decreases |path|
  {
    var k :| 0 <= k < |ts| && NodeHasLeaf(ts[k], m);
    SegmentsOfPlain(ts[k]);
    NodeLeafHead(ts[k], m);
    var i := FindName(ts, path[0]);
    assert ts[k].name == path[0];
    SegmentsOfPlain(ts[i]);
    assert i == k;
    if ts[k].kind == Directory {
      var inner := m.(path := m.path[1..]);
      assert HasLeaf(ts[k].children, inner);
      RowBlocks(ts[k].children, path[1..], inner);
    }
  }

  lemma BlockedMeaning(ts: seq<Node>, path: Path)
    requires Sound(ts) && Unmerged(ts)
    ensures Blocked(ts, path) <==> exists m :: HasLeaf(ts, m) && m.path < path
  {
    if Blocked(ts, path) {
      var m := BlockingRow(ts, path);
    }
    if m :| HasLeaf(ts, m) && m.path < path {
      RowBlocks(ts, path, m);
    }
  }

  /** Inserting into vacant ground keeps the tree sound, and adds exactly the
      new row, or nothing when a file is in the way. */
  lemma {:induction false} InsertKeepsSound(ts: seq<Node>, path: Path, badge: FileChange, counts: Option<LineCounts>)
    requires Sound(ts) && Unmerged(ts)
    requires NormalPath(path) && Vacant(ts, path)
    ensures Sound(Insert(ts, path, badge, counts)) && Unmerged(Insert(ts, path, badge, counts))
    decreases |path|
  {
    var i := FindName(ts, path[0]);
    assert path[0] in path;
    if |path| == 1 {
      if i < |ts| {
        SegmentsOfPlain(ts[i]);
        NothingAt(ts, i, path);
      }
      SoundAppended(ts, FileNode(path[0], badge, counts));
    } else {
      assert NormalPath(path[1..]);
      if i == |ts| {
        assert Vacant([], path[1..]);
        InsertKeepsSound([], path[1..], badge, counts);
        SoundAppended(ts, EmptyDirectory(path[0]).(children := Insert([], path[1..], badge, counts)));
      } else {
        if ts[i].kind == Directory {
          SegmentsOfPlain(ts[i]);
          VacantBelow(ts, i, path);
          InsertKeepsSound(ts[i].children, path[1..], badge, counts);
        }
        SoundReplaced(ts, i, Insert(ts[i].children, path[1..], badge, counts));
      }
    }
  }

  /** A child of a new plain name can join. */
  lemma SoundAppended(ts: seq<Node>, c: Node)
    requires Sound(ts) && Unmerged(ts) && FindName(ts, c.name) == |ts| && Lacks(c.name, '/')
    requires c.kind == Directory ==> c.children != [] && Sound(c.children) && Unmerged(c.children)
    ensures Sound(ts + [c]) && Unmerged(ts + [c])
  {
    forall k | 0 <= k < |ts|
      ensures Segments(ts[k]) == [ts[k].name]
    {
      SegmentsOfPlain(ts[k]);
    }
    SegmentsOfPlain(c);
  }

  /** A child can change what is below it. */
  lemma SoundReplaced(ts: seq<Node>, i: nat, children: seq<Node>)
    requires Sound(ts) && Unmerged(ts) && i < |ts|
    requires ts[i].kind == Directory ==> children != [] && Sound(children) && Unmerged(children)
    ensures Sound(ts[i := ts[i].(children := children)]) && Unmerged(ts[i := ts[i].(children := children)])
  {
    var r := ts[i := ts[i].(children := children)];
    assert forall k :: 0 <= k < |r| ==> Segments(r[k]) == Segments(ts[k]);
  }

  /** A row named like the path's first component rules out a vacant one-component path. */
  lemma NothingAt(ts: seq<Node>, i: nat, path: Path)
    requires Sound(ts) && i < |ts| && Segments(ts[i]) == path
    ensures !Vacant(ts, path)
  {
    if ts[i].kind == File {
      var l := Leaf(path, ts[i].badge, ts[i].counts);
      assert NodeHasLeaf(ts[i], l);
    } else {
      var inner := SomeLeaf(ts[i].children);
      var l := inner.(path := path + inner.path);
      assert l.path[|path|..] == inner.path && l.(path := inner.path) == inner;
      assert NodeHasLeaf(ts[i], l);
    }
  }

  lemma VacantBelow(ts: seq<Node>, i: nat, path: Path)
    requires i < |ts| && |path| >= 2 && Segments(ts[i]) == [path[0]] && ts[i].kind == Directory
    requires Vacant(ts, path)
    ensures Vacant(ts[i].children, path[1..])
  {
    forall inner | HasLeaf(ts[i].children, inner)
      ensures !(path[1..] <= inner.path)
    {
      var l := inner.(path := [path[0]] + inner.path);
      assert l.path[1..] == inner.path && l.(path := inner.path) == inner;
      assert NodeHasLeaf(ts[i], l);
      assert path[1..] <= inner.path ==> path <= l.path;
    }
  }

  lemma {:induction false} InsertAddsRow(ts: seq<Node>, path: Path, badge: FileChange,
                                         counts: Option<LineCounts>, l: Leaf)
    requires Sound(ts) && Unmerged(ts)
    requires NormalPath(path)
    ensures HasLeaf(Insert(ts, path, badge, counts), l) <==>
            HasLeaf(ts, l) || (l == Leaf(path, Some(badge), counts) && !Blocked(ts, path))
    decreases |path|
  {
    var i := FindName(ts, path[0]);
    assert path[0] in path;
    SplitOfPlain(path[0], '/');
    var after := Insert(ts, path, badge, counts);
    if |path| == 1 {
      assert path == [path[0]];
      HasLeafAppended(ts, FileNode(path[0], badge, counts), l);
    } else {
      assert NormalPath(path[1..]);
      assert path == [path[0]] + path[1..];
      if |l.path| >= 1 {
        InsertAddsRow(if i < |ts| && ts[i].kind == Directory then ts[i].children else [],
                      path[1..], badge, counts, Tail(l));
      }
      if i == |ts| {
        RowInNewDirectory(ts, path, Insert([], path[1..], badge, counts), Leaf(path, Some(badge), counts), l);
      } else {
        SegmentsOfPlain(ts[i]);
        RowInChild(ts, i, after[i].children, Leaf(path, Some(badge), counts), l, !Blocked(ts[i].children, path[1..]));
      }
    }
  }

  /** A file row below its first component. */
  ghost function Tail(l: Leaf): Leaf
    requires |l.path| >= 1
  {
    l.(path := l.path[1..])
  }

  /** What a row in a directory of its own adds to the list. */
  lemma RowInNewDirectory(ts: seq<Node>, path: Path, children: seq<Node>, row: Leaf, l: Leaf)
    requires NormalPath(path) && |path| >= 2 && row.path == path
    requires |l.path| >= 1 ==> (HasLeaf(children, Tail(l)) <==> Tail(l) == Tail(row))
    ensures HasLeaf(ts + [EmptyDirectory(path[0]).(children := children)], l) <==> HasLeaf(ts, l) || l == row
  {
    assert path[0] in path;
    SplitOfPlain(path[0], '/');
    HasLeafAppended(ts, EmptyDirectory(path[0]).(children := children), l);
    assert path == [path[0]] + path[1..];
    if |l.path| >= 1 && l.path[0] == path[0] {
      assert l.path == [l.path[0]] + l.path[1..];
      assert Tail(l) == Tail(row) ==> l == row;
    }
  }

  /** What a row added below one child adds to the list. */
  lemma RowInChild(ts: seq<Node>, i: nat, children: seq<Node>, row: Leaf, l: Leaf, shown: bool)
    requires i < |ts| && |row.path| >= 1 && Segments(ts[i]) == [row.path[0]]
    requires ts[i].kind == Directory && |l.path| >= 1 ==>
               (HasLeaf(children, Tail(l)) <==> HasLeaf(ts[i].children, Tail(l)) || (Tail(l) == Tail(row) && shown))
    ensures HasLeaf(ts[i := ts[i].(children := children)], l) <==>
            HasLeaf(ts, l) || (l == row && ts[i].kind == Directory && shown)
  {
    HasLeafReplaced(ts, i, ts[i].(children := children), l);
    if |l.path| >= 1 && l.path[0] == row.path[0] {
      assert l.path == [row.path[0]] + l.path[1..] && row.path == [row.path[0]] + row.path[1..];
      assert Tail(l) == Tail(row) ==> l == row;
    }
  }

  lemma HasLeafAppended(ts: seq<Node>, c: Node, l: Leaf)
    ensures HasLeaf(ts + [c], l) <==> HasLeaf(ts, l) || NodeHasLeaf(c, l)
  {
    if HasLeaf(ts, l) {
      var i :| 0 <= i < |ts| && NodeHasLeaf(ts[i], l);
      assert (ts + [c])[i] == ts[i];
    }
    if NodeHasLeaf(c, l) {
      assert (ts + [c])[|ts|] == c;
    }
  }

  lemma HasLeafReplaced(ts: seq<Node>, i: nat, c: Node, l: Leaf)
    requires i < |ts|
    ensures HasLeaf(ts[i := c], l) <==>
            NodeHasLeaf(c, l) || exists k :: 0 <= k < |ts| && k != i && NodeHasLeaf(ts[k], l)
  {
    var after := ts[i := c];
    if NodeHasLeaf(c, l) {
      assert after[i] == c;
    }
    if exists k :: 0 <= k < |ts| && k != i && NodeHasLeaf(ts[k], l) {
      var k :| 0 <= k < |ts| && k != i && NodeHasLeaf(ts[k], l);
      assert after[k] == ts[k];
    }
  }
}
