/** The tree as `build_tree` handles it: nodes that own their children and are
    changed in place, pass by pass. `Tree` is the value a node stands for; each
    method is proved to move it as the function of the same pass does. */
module TreeObjects {
  import opened Prelude
  import opened Text
  import opened Paths
  import opened ChangedTree
  import opened TreePasses

  /** Inserting below the child of that name, created first when there is none. */
  lemma InsertNamed(ts: seq<Node>, path: Path, badge: FileChange, counts: Option<LineCounts>)
    requires |path| >= 2
    ensures var i := FindName(ts, path[0]);
            var named := if i < |ts| then ts else ts + [EmptyDirectory(path[0])];
            i < |named| &&
            Insert(ts, path, badge, counts) ==
                named[i := named[i].(children := Insert(named[i].children, path[1..], badge, counts))]
  {
  }

  class TreeNode {
    var name: string
    var kind: Kind
    var badge: Option<FileChange>
    var expanded: bool
    var children: seq<TreeNode>
    var counts: Option<LineCounts>

    ghost var Tree: Node
    ghost var Repr: set<object>

    /** The children are distinct owned subtrees, and `Tree` is what they hold. */
    ghost predicate Valid()
      reads this, Repr
      decreases Repr
    {
      && this in Repr
      && (forall i :: 0 <= i < |children| ==>
            && children[i] in Repr && children[i].Repr <= Repr && this !in children[i].Repr
            && children[i].Valid())
      && (forall i, j :: 0 <= i < j < |children| ==> children[i].Repr !! children[j].Repr)
      && |Tree.children| == |children|
      && Tree == Node(name, kind, badge, expanded, Tree.children, counts)
      && (forall i :: 0 <= i < |children| ==> Tree.children[i] == children[i].Tree)
    }

    /** Valid but for child `i`, which was changed and not yet folded into `Tree`. */
    ghost predicate ValidExcept(i: nat)
      reads this, Repr, children, if i < |children| then children[i].Repr else {}
    {
      && this in Repr && i < |children|
      && (forall k :: 0 <= k < |children| ==>
            && children[k] in Repr && (k != i ==> children[k].Repr <= Repr) && this !in children[k].Repr
            && children[k].Valid())
      && (forall j, k :: 0 <= j < k < |children| ==> children[j].Repr !! children[k].Repr)
      && |Tree.children| == |children|
      && Tree == Node(name, kind, badge, expanded, Tree.children, counts)
      && (forall k :: 0 <= k < |children| && k != i ==> Tree.children[k] == children[k].Tree)
    }

    /** A change inside one child leaves its siblings as they were. */
    twostate lemma SiblingsStay(i: nat)
      requires old(Valid()) && i < |old(children)|
      requires unchanged(old(Repr) - old(children[i].Repr))
      requires children[i].Valid() && fresh(children[i].Repr - old(children[i].Repr))
      ensures ValidExcept(i)
    {
      forall k | 0 <= k < |children| && k != i
        ensures children[k].Repr == old(children[k].Repr) && children[k].Valid()
                && children[k].Tree == old(children[k].Tree)
      {
        assert old(children[k].Repr) !! old(children[i].Repr);
      }
    }

    /** Fold a changed child back into `Tree` and `Repr`. */
    ghost method Refresh(i: nat)
      requires ValidExcept(i)
      modifies this`Tree, this`Repr
      ensures Valid() && Repr == old(Repr) + children[i].Repr
      ensures old(children[i].Repr <= Repr) ==> Repr == old(Repr)
      ensures Tree == old(Tree).(children := old(Tree).children[i := children[i].Tree])
    {
      Tree := Tree.(children := Tree.children[i := children[i].Tree]);
      Repr := Repr + children[i].Repr;
    }

    constructor (name: string, kind: Kind, badge: Option<FileChange>, counts: Option<LineCounts>)
      ensures Valid() && fresh(Repr)
      ensures Tree == Node(name, kind, badge, false, [], counts)
    {
      this.name, this.kind, this.badge, this.expanded := name, kind, badge, false;
      this.children, this.counts := [], counts;
      Tree := Node(name, kind, badge, false, [], counts);
      Repr := {this};
    }

    /** The search `insert_path` and `node_at` make: the first child of that name. */
    method Position(name: string) returns (i: nat)
      requires Valid()
      ensures i == FindName(Tree.children, name)
    {
      i := 0;
      while i < |children| && children[i].name != name
        invariant i <= |children|
        invariant forall j :: 0 <= j < i ==> Tree.children[j].name != name
      {
        i := i + 1;
      }
      ghost var found := FindName(Tree.children, name);
      assert found >= i;
    }

    /** `insert_path`. */
    method InsertPath(components: Path, badge: FileChange, counts: Option<LineCounts>)
      requires Valid()
      modifies Repr
      ensures Valid() && fresh(Repr - old(Repr)) && old(Repr) <= Repr
      ensures Tree == old(Tree).(children := Insert(old(Tree).children, components, badge, counts))
      decreases |components|, 1
    {
      if components == [] {
        return;
      }
      var name := components[0];
      if |components| == 1 {
        AddFile(name, badge, counts);
        return;
      }
      InsertNamed(Tree.children, components, badge, counts);
      var i := ChildNamed(name);
      InsertPathBelow(i, components, badge, counts);
    }

    method AddFile(name: string, badge: FileChange, counts: Option<LineCounts>)
      requires Valid()
      modifies this
      ensures Valid() && fresh(Repr - old(Repr)) && old(Repr) <= Repr
      ensures Tree == old(Tree).(children := old(Tree).children + [FileNode(name, badge, counts)])
    {
      var file := new TreeNode(name, File, Some(badge), counts);
      Adopt(file);
    }

    /** The child of that name, created as an empty directory if there is none. */
    method ChildNamed(name: string) returns (i: nat)
      requires Valid()
      modifies Repr
      ensures Valid() && fresh(Repr - old(Repr)) && old(Repr) <= Repr
      ensures i == FindName(old(Tree).children, name) < |children|
      ensures Tree == old(Tree).(children := if i < |old(children)| then old(Tree).children
                                             else old(Tree).children + [EmptyDirectory(name)])
    {
      i := Position(name);
      if i == |children| {
        var directory := new TreeNode(name, Directory, None, None);
        Adopt(directory);
      }
    }

    method InsertPathBelow(i: nat, components: Path, badge: FileChange, counts: Option<LineCounts>)
      requires Valid() && i < |children| && components != []
      modifies Repr
      ensures Valid() && fresh(Repr - old(Repr)) && old(Repr) <= Repr
      ensures var was := old(Tree).children;
              Tree == old(Tree).(children :=
                  was[i := was[i].(children := Insert(was[i].children, components[1..], badge, counts))])
      decreases |components|, 0
    {
      var child := children[i];
      label before:
      child.InsertPath(components[1..], badge, counts);
      SiblingsStay@before(i);
      Refresh(i);
    }

    /** `children.push`. */
    method Adopt(child: TreeNode)
      requires Valid() && child.Valid() && child.Repr !! Repr
      modifies this
      ensures Valid() && Repr == old(Repr) + child.Repr
      ensures children == old(children) + [child]
      ensures Tree == old(Tree).(children := old(Tree).children + [child.Tree])
      ensures child.Tree == old(child.Tree) && child.Repr == old(child.Repr)
    {
      children := children + [child];
      Repr := Repr + child.Repr;
      Tree := Tree.(children := Tree.children + [child.Tree]);
    }

    /** `merge_single_child_chains`. */
    method MergeSingleChildChains()
      requires Valid()
      modifies Repr
      ensures Valid() && Repr == old(Repr)
      ensures Tree == old(Tree).(children := MergeChains(old(Tree).children))
      decreases Repr, 2
    {
      ghost var was := Tree.children;
      for i := 0 to |children|
        invariant Valid() && Repr == old(Repr) && |children| == |was|
        invariant Tree.children == MergedUpTo(was, i) && Tree == old(Tree).(children := Tree.children)
      {
        MergeNext(i, was);
      }
    }

    method MergeNext(i: nat, ghost was: seq<Node>)
      requires Valid() && i < |children| == |was| && Tree.children == MergedUpTo(was, i)
      modifies Repr
      ensures Valid() && Repr == old(Repr) && |children| == |was|
      ensures Tree.children == MergedUpTo(was, i + 1) && Tree == old(Tree).(children := Tree.children)
      decreases Repr, 1
    {
      MergedNext(was, i);
      MergeChild(i);
    }

    method MergeChild(i: nat)
      requires Valid() && i < |children|
      modifies Repr
      ensures Valid() && Repr == old(Repr) && children == old(children)
      ensures var was := old(Tree).children;
              Tree == old(Tree).(children := was[i := Absorb(was[i].(children := MergeChains(was[i].children)))])
      decreases Repr, 0
    {
      label before:
      children[i].MergeSingleChildChains();
      children[i].AbsorbOnlyDirectory();
      SiblingsStay@before(i);
      Refresh(i);
    }

    /** One absorbing step: take over the only child's name and children. */
    method AbsorbOnlyDirectory()
      requires Valid()
      modifies this
      ensures Valid() && Repr == old(Repr)
      ensures Tree == Absorb(old(Tree))
    {
      if kind == Directory && |children| == 1 && children[0].kind == Directory {
        var only := children[0];
        name := name + ['/'] + only.name;
        children := only.children;
        Tree := Absorb(Tree);
      }
    }

    /** `sort_children`. */
    method SortChildren()
      requires Valid()
      modifies Repr
      ensures Valid() && Repr == old(Repr)
      ensures Tree == old(Tree).(children := SortTree(old(Tree).children))
      decreases Repr, 1
    {
      SortByKindAndName();
      ghost var was := Tree.children;
      SortTreeSplits(old(Tree).children);
      for i := 0 to |children|
        invariant Valid() && Repr == old(Repr) && |children| == |was|
        invariant Tree.children == Partly(SortEach(was), was, i) && Tree == old(Tree).(children := Tree.children)
      {
        SortedNext(was, i);
        SortChild(i);
      }
    }

    method SortChild(i: nat)
      requires Valid() && i < |children|
      modifies Repr
      ensures Valid() && Repr == old(Repr) && children == old(children)
      ensures var was := old(Tree).children;
              Tree == old(Tree).(children := was[i := was[i].(children := SortTree(was[i].children))])
      decreases Repr, 0
    {
      var child := children[i];
      label before:
      child.SortChildren();
      SiblingsStay@before(i);
      Refresh(i);
    }

    /** The stable `sort_by` of this node's own child list. */
    method SortByKindAndName()
      requires Valid()
      modifies this
      ensures Valid() && Repr == old(Repr)
      ensures Tree == old(Tree).(children := SortSiblings(old(Tree).children))
    {
      var sorted := SortedChildren();
      Reorder(sorted);
    }

    method SortedChildren() returns (sorted: seq<TreeNode>)
      requires Valid()
      ensures TreesOf(sorted) == SortSiblings(Tree.children)
      ensures Separate(sorted) && forall x :: x in sorted ==> x in children
    {
      sorted := [];
      var i: nat := |children|;
      while i > 0
        invariant i <= |children|
        invariant TreesOf(sorted) == SortSiblings(Tree.children[i..])
        invariant forall x :: x in sorted ==> x in children[i..]
        invariant Separate(sorted)
      {
        i := i - 1;
        assert Tree.children[i..][0] == children[i].Tree && Tree.children[i..][1..] == Tree.children[i + 1..];
        assert children[i..] == [children[i]] + children[i + 1..];
        LaterChildren(i);
        sorted := Place(children[i], sorted);
      }
      assert Tree.children[0..] == Tree.children && children[0..] == children;
    }

    method Reorder(nodes: seq<TreeNode>)
      requires Valid() && Separate(nodes) && forall x :: x in nodes ==> x in children
      modifies this
      ensures Valid() && Repr == old(Repr)
      ensures Tree == old(Tree).(children := old(TreesOf(nodes)))
    {
      forall k | 0 <= k < |nodes|
        ensures nodes[k] in Repr && nodes[k].Repr <= Repr && this !in nodes[k].Repr && nodes[k].Valid()
      {
        assert nodes[k] in children;
      }
      children := nodes;
      Tree := Tree.(children := TreesOf(nodes));
    }

    lemma LaterChildren(i: nat)
      requires Valid() && i < |children|
      ensures forall x :: x in children[i + 1..] ==> x.Valid() && x.Repr !! children[i].Repr
    {
    }

    ghost static predicate Separate(nodes: seq<TreeNode>)
      reads nodes
    {
      forall j, k :: 0 <= j < k < |nodes| ==> nodes[j].Repr !! nodes[k].Repr
    }

    ghost static function TreesOf(nodes: seq<TreeNode>): (trees: seq<Node>)
      reads nodes
      ensures |trees| == |nodes| && forall k :: 0 <= k < |nodes| ==> trees[k] == nodes[k].Tree
    {
      seq(|nodes|, k requires 0 <= k < |nodes| reads nodes => nodes[k].Tree)
    }

    /** One insertion of the stable sort. */
    static method Place(child: TreeNode, sorted: seq<TreeNode>) returns (r: seq<TreeNode>)
      requires child.Valid() && Separate(sorted)
      requires forall x :: x in sorted ==> x.Valid() && x.Repr !! child.Repr
      ensures TreesOf(r) == InsertSibling(child.Tree, TreesOf(sorted))
      ensures forall x :: x in r <==> x == child || x in sorted
      ensures Separate(r)
    {
      forall k | 0 <= k < |sorted|
        ensures ChildBefore(sorted[k], child) == Before(TreesOf(sorted)[k], child.Tree)
      {
        assert sorted[k] in sorted;
      }
      var p := 0;
      while p < |sorted| && ChildBefore(sorted[p], child)
        invariant p <= |sorted|
        invariant forall k :: 0 <= k < p ==> Before(TreesOf(sorted)[k], child.Tree)
      {
        p := p + 1;
      }
      InsertSiblingAt(child.Tree, TreesOf(sorted), p);
      PlaceKeepsSeparate(child, sorted, p);
      r := sorted[..p] + [child] + sorted[p..];
      TreesOfPlaced(child, sorted, p);
    }

    static lemma PlaceKeepsSeparate(child: TreeNode, sorted: seq<TreeNode>, p: nat)
      requires p <= |sorted| && Separate(sorted)
      requires forall x :: x in sorted ==> x.Repr !! child.Repr
      ensures Separate(sorted[..p] + [child] + sorted[p..])
    {
      var r := sorted[..p] + [child] + sorted[p..];
      forall j, k | 0 <= j < k < |r|
        ensures r[j].Repr !! r[k].Repr
      {
        assert r[j] == if j < p then sorted[j] else if j == p then child else sorted[j - 1];
        assert r[k] == if k < p then sorted[k] else if k == p then child else sorted[k - 1];
      }
    }

    static lemma TreesOfPlaced(child: TreeNode, sorted: seq<TreeNode>, p: nat)
      requires p <= |sorted|
      ensures TreesOf(sorted[..p] + [child] + sorted[p..]) == TreesOf(sorted)[..p] + [child.Tree] + TreesOf(sorted)[p..]
    {
      var r := sorted[..p] + [child] + sorted[p..];
      var was := TreesOf(sorted);
      var trees := was[..p] + [child.Tree] + was[p..];
      forall k | 0 <= k < |r|
        ensures TreesOf(r)[k] == trees[k]
      {
        PlacedAt(sorted, child, p, k);
        PlacedAt(was, child.Tree, p, k);
      }
    }

    static predicate ChildBefore(a: TreeNode, b: TreeNode)
      reads a, b
    {
      KindRank(a.kind) < KindRank(b.kind) ||
      (a.kind == b.kind && Less(FirstSegment(a.name), FirstSegment(b.name)))
    }

    method SetExpanded(value: bool)
      requires Valid()
      modifies this
      ensures Valid() && Repr == old(Repr) && Tree == old(Tree).(expanded := value)
    {
      expanded := value;
      Tree := Tree.(expanded := value);
    }

    method SetCounts(value: Option<LineCounts>)
      requires Valid()
      modifies this
      ensures Valid() && Repr == old(Repr) && Tree == old(Tree).(counts := value)
    {
      counts := value;
      Tree := Tree.(counts := value);
    }

    /** `compute_expansion`: the answer goes to the parent. */
    method ComputeExpansion() returns (changed: bool)
      requires Valid()
      modifies Repr
      ensures Valid() && Repr == old(Repr)
      ensures Tree == Expand([old(Tree)])[0]
      ensures changed == HasChange([old(Tree)])
      decreases Repr, 3
    {
      HasChangeOfOne(Tree);
      ExpandAt([Tree], 0);
      if kind == File {
        return badge.Some?;
      }
      changed := ExpandChildren();
      SetExpanded(changed);
    }

    method ExpandChildren() returns (changed: bool)
      requires Valid()
      modifies Repr
      ensures Valid() && Repr == old(Repr)
      ensures Tree == old(Tree).(children := Expand(old(Tree).children))
      ensures changed == HasChange(old(Tree).children)
      decreases Repr, 2
    {
      ghost var was := Tree.children;
      changed := false;
      assert was[0..] == was;
      for i := 0 to |children|
        invariant Valid() && Repr == old(Repr) && |children| == |was|
        invariant Tree.children == Partly(Expand(was), was, i) && Tree == old(Tree).(children := Tree.children)
        invariant HasChange(was) == (changed || HasChange(was[i..]))
      {
        var below := ExpandNext(i, was);
        changed := changed || below;
      }
    }

    method ExpandNext(i: nat, ghost was: seq<Node>) returns (changed: bool)
      requires Valid() && i < |children| == |was| && Tree.children == Partly(Expand(was), was, i)
      modifies Repr
      ensures Valid() && Repr == old(Repr) && |children| == |was|
      ensures Tree.children == Partly(Expand(was), was, i + 1) && Tree == old(Tree).(children := Tree.children)
      ensures HasChange(was[i..]) == (changed || HasChange(was[i + 1..]))
      decreases Repr, 1
    {
      ExpandedNext(was, i);
      changed := ExpandChild(i);
    }

    method ExpandChild(i: nat) returns (changed: bool)
      requires Valid() && i < |children|
      modifies Repr
      ensures Valid() && Repr == old(Repr) && children == old(children)
      ensures var was := old(Tree).children; Tree == old(Tree).(children := was[i := Expand([was[i]])[0]])
      ensures changed == HasChange([old(Tree).children[i]])
      decreases Repr, 0
    {
      label before:
      changed := children[i].ComputeExpansion();
      SiblingsStay@before(i);
      Refresh(i);
    }

    /** `compute_counts`: the total goes to the parent. */
    method ComputeCounts() returns (total: Option<LineCounts>)
      requires Valid()
      modifies Repr
      ensures Valid() && Repr == old(Repr)
      ensures Tree == Count([old(Tree)])[0]
      ensures total == Total([old(Tree)])
      decreases Repr, |children| + 1
    {
      TotalOfOne(Tree);
      CountAt([Tree], 0);
      if kind == File {
        return counts;
      }
      ghost var was := Tree.children;
      assert was[..0] + Count(was[0..]) == Count(was) && was[0..] == was;
      total := CountFrom(0, None);
      SetCounts(total);
    }

    /** The children from `i` on, each counted in its place and added to the total. */
    method CountFrom(i: nat, total: Option<LineCounts>) returns (sum: Option<LineCounts>)
      requires Valid() && i <= |children|
      modifies Repr
      ensures Valid() && Repr == old(Repr) && children == old(children)
      ensures var was := old(Tree).children; Tree == old(Tree).(children := was[..i] + Count(was[i..]))
      ensures sum == Combine(total, Total(old(Tree).children[i..]))
      decreases Repr, |children| - i
    {
      if i == |children| {
        assert Tree.children[..i] + Count(Tree.children[i..]) == Tree.children;
        return total;
      }
      ghost var was := Tree.children;
      var below := CountChild(i);
      CountStep(was, i);
      SumStep(was, i, total);
      sum := CountFrom(i + 1, Combine(total, below));
    }

    method CountChild(i: nat) returns (sum: Option<LineCounts>)
      requires Valid() && i < |children|
      modifies Repr
      ensures Valid() && Repr == old(Repr) && children == old(children)
      ensures Tree == old(Tree).(children := CountedAt(old(Tree).children, i))
      ensures sum == Total([old(Tree).children[i]])
      decreases Repr, 0
    {
      label before:
      sum := children[i].ComputeCounts();
      SiblingsStay@before(i);
      Refresh(i);
    }

    /** `node_at`. */
    method Resolve(key: seq<string>) returns (found: Option<TreeNode>)
      requires Valid()
      ensures found.Some? <==> NodeAt(Tree, key).Some?
      ensures found.Some? ==> found.value.Valid() && found.value.Tree == NodeAt(Tree, key).value
    {
      var current := this;
      for i := 0 to |key|
        invariant current.Valid() && NodeAt(Tree, key) == NodeAt(current.Tree, key[i..])
      {
        assert key[i..][0] == key[i] && key[i..][1..] == key[i + 1..];
        var p := current.Position(key[i]);
        if p == |current.children| {
          return None;
        }
        current := current.children[p];
      }
      found := Some(current);
    }
  }

  lemma PlacedAt<T>(s: seq<T>, x: T, p: nat, k: nat)
    requires p <= |s| && k <= |s|
    ensures (s[..p] + [x] + s[p..])[k] == if k < p then s[k] else if k == p then x else s[k - 1]
  {
  }

  /** A list some passes of a loop into being rewritten. */
  ghost function Partly(done: seq<Node>, todo: seq<Node>, i: nat): (r: seq<Node>)
    requires i <= |todo| == |done|
    ensures |r| == |todo|
    ensures i == |todo| ==> r == done
    ensures i == 0 ==> r == todo
    ensures i < |todo| ==> r[i] == todo[i]
  {
    done[..i] + todo[i..]
  }

  lemma PartlyStep(done: seq<Node>, todo: seq<Node>, i: nat)
    requires i < |todo| == |done|
    ensures Partly(done, todo, i)[i := done[i]] == Partly(done, todo, i + 1)
  {
  }

  /** Where the folding loop has come to. */
  ghost function MergedUpTo(was: seq<Node>, i: nat): (r: seq<Node>)
    requires i <= |was|
    ensures |r| == |was|
    ensures i == 0 ==> r == was
    ensures i == |was| ==> r == MergeChains(was)
  {
    Partly(MergeChains(was), was, i)
  }

  lemma MergedNext(was: seq<Node>, i: nat)
    requires i < |was|
    ensures var now := MergedUpTo(was, i);
            now[i := Absorb(now[i].(children := MergeChains(now[i].children)))] == MergedUpTo(was, i + 1)
  {
    MergeChainsAt(was, i);
    PartlyStep(MergeChains(was), was, i);
  }

  /** One turn of the sorting loop. */
  lemma SortedNext(was: seq<Node>, i: nat)
    requires i < |was|
    ensures var now := Partly(SortEach(was), was, i);
            now[i := now[i].(children := SortTree(now[i].children))] == Partly(SortEach(was), was, i + 1)
  {
    SortEachAt(was, i);
    PartlyStep(SortEach(was), was, i);
  }

  /** One turn of the expansion loop. */
  lemma ExpandedNext(was: seq<Node>, i: nat)
    requires i < |was|
    ensures var now := Partly(Expand(was), was, i);
            now[i := Expand([now[i]])[0]] == Partly(Expand(was), was, i + 1)
    ensures HasChange(was[i..]) == (HasChange([was[i]]) || HasChange(was[i + 1..]))
  {
    assert was[i..][0] == was[i] && was[i..][1..] == was[i + 1..];
    HasChangeOfOne(was[i]);
    ExpandAt(was, i);
    ExpandAt([was[i]], 0);
    PartlyStep(Expand(was), was, i);
  }

  lemma HasChangeOfOne(c: Node)
    ensures HasChange([c]) == if c.kind == File then c.badge.Some? else HasChange(c.children)
  {
    assert [c][0] == c && [c][1..] == [];
  }

  lemma TotalOfOne(c: Node)
    ensures Total([c]) == if c.kind == File then c.counts else Total(c.children)
  {
    assert [c][0] == c && [c][1..] == [];
  }

  /** The list with node `i` counted. */
  ghost function CountedAt(ts: seq<Node>, i: nat): (r: seq<Node>)
    requires i < |ts|
    ensures |r| == |ts|
  {
    ts[i := Count([ts[i]])[0]]
  }

  lemma CountStep(ts: seq<Node>, i: nat)
    requires i < |ts|
    ensures var next := CountedAt(ts, i);
            next[..i + 1] + Count(next[i + 1..]) == ts[..i] + Count(ts[i..])
  {
    var next := CountedAt(ts, i);
    assert next[i + 1..] == ts[i + 1..] && ts[i..][0] == ts[i] && ts[i..][1..] == ts[i + 1..];
    CountAt([ts[i]], 0);
    assert Count(ts[i..]) == [next[i]] + Count(ts[i + 1..]);
    assert next[..i + 1] == ts[..i] + [next[i]];
  }

  lemma SumStep(ts: seq<Node>, i: nat, total: Option<LineCounts>)
    requires i < |ts|
    ensures CountedAt(ts, i)[i + 1..] == ts[i + 1..]
    ensures Combine(Combine(total, Total([ts[i]])), Total(ts[i + 1..])) == Combine(total, Total(ts[i..]))
  {
    assert ts[i..][0] == ts[i] && ts[i..][1..] == ts[i + 1..];
    TotalOfOne(ts[i]);
    CombineAssociative(total, Total([ts[i]]), Total(ts[i + 1..]));
  }

  // ---------- sorting a list, then each element's own children ----------

  function SortEach(ts: seq<Node>): (r: seq<Node>)
    ensures |r| == |ts|
  {
    if ts == [] then [] else [ts[0].(children := SortTree(ts[0].children))] + SortEach(ts[1..])
  }

  lemma {:induction false} SortEachAt(ts: seq<Node>, i: nat)
    requires i < |ts|
    ensures SortEach(ts)[i] == ts[i].(children := SortTree(ts[i].children))
  {
    if i > 0 {
      SortEachAt(ts[1..], i - 1);
    }
  }

  lemma {:induction false} SortEachInsert(c: Node, s: seq<Node>)
    ensures SortEach(InsertSibling(c, s)) == InsertSibling(c.(children := SortTree(c.children)), SortEach(s))
  {
    if s != [] && Before(s[0], c) {
      SortEachInsert(c, s[1..]);
      assert ([s[0]] + InsertSibling(c, s[1..]))[1..] == InsertSibling(c, s[1..]);
    } else if s != [] {
      assert ([c] + s)[1..] == s;
    }
  }

  lemma {:induction false} SortTreeSplits(ts: seq<Node>)
    ensures SortTree(ts) == SortEach(SortSiblings(ts))
  {
    if ts != [] {
      SortTreeSplits(ts[1..]);
      SortEachInsert(ts[0], SortSiblings(ts[1..]));
    }
  }

  /** The insertion point is the first sibling the comparator does not put before. */
  lemma {:induction false} InsertSiblingAt(c: Node, s: seq<Node>, p: nat)
    requires p <= |s| && (forall k :: 0 <= k < p ==> Before(s[k], c)) && (p < |s| ==> !Before(s[p], c))
    ensures InsertSibling(c, s) == s[..p] + [c] + s[p..]
  {
    if p > 0 {
      InsertSiblingAt(c, s[1..], p - 1);
      assert s[..p] == [s[0]] + s[1..][..p - 1] && s[1..][p - 1..] == s[p..];
    }
  }

  /** The loop that merges git's answer into the map. */
  method CollectBadges(changes: seq<GitFileChange>) returns (badges: seq<Entry>)
    ensures badges == Collect(changes)
  {
    badges := [];
    for i := 0 to |changes|
      invariant badges == Collect(changes[..i])
    {
      assert changes[..i + 1][..i] == changes[..i];
      badges := Record(badges, changes[i]);
    }
    assert changes[..|changes|] == changes;
  }

  /** The root with every entry inserted. */
  method GrowTree(rootName: string, badges: seq<Entry>) returns (root: TreeNode)
    ensures root.Valid() && fresh(root.Repr)
    ensures root.Tree == EmptyDirectory(rootName).(children := InsertAll([], badges))
  {
    root := new TreeNode(rootName, Directory, None, None);
    for i := 0 to |badges|
      invariant root.Valid() && fresh(root.Repr)
      invariant root.Tree == EmptyDirectory(rootName).(children := InsertAll([], badges[..i]))
    {
      assert badges[..i + 1][..i] == badges[..i];
      root.InsertPath(badges[i].path, badges[i].badge, badges[i].counts);
    }
    assert badges[..|badges|] == badges;
  }

  /** The last two passes on the root. */
  lemma PassesOnRoot(rootName: string, rows: seq<Node>)
    ensures var root := EmptyDirectory(rootName).(children := rows);
            Count([Expand([root])[0]])[0]
            == Node(rootName, Directory, None, HasChange(rows), Count(Expand(rows)), Total(Expand(rows)))
  {
    var root := EmptyDirectory(rootName).(children := rows);
    ExpandAt([root], 0);
    HasChangeOfOne(root);
    CountAt([Expand([root])[0]], 0);
    TotalOfOne(Expand([root])[0]);
  }

  /** `build_tree`: the tree the passes leave is the one the functions describe. */
  method BuildTreeObject(rootName: string, changes: seq<GitFileChange>) returns (root: TreeNode)
    ensures root.Valid() && fresh(root.Repr)
    ensures root.Tree == BuildTree(rootName, changes)
  {
    var badges := CollectBadges(changes);
    root := GrowTree(rootName, badges);
    root.MergeSingleChildChains();
    root.SortChildren();
    PassesOnRoot(rootName, Rows(changes));
    var changed := root.ComputeExpansion();
    var total := root.ComputeCounts();
  }
}
