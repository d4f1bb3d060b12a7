/** The changed-file tree on values: what each pass of `build_tree` does to the
    children of one node. The passes that change nodes in place are in
    `TreeObjects`, each proved equal to the function here. */
module ChangedTree {
  import opened Prelude
  import opened Text
  import opened Paths

  datatype FileChange = Added | Modified | Deleted

  datatype Kind = File | Directory

  const U32_MAX: nat := 0xFFFF_FFFF

  /** Rust's `u32`. */
  type Lines = n: nat | n <= U32_MAX

  datatype LineCounts = LineCounts(added: Lines, removed: Lines)

  /** One changed file as git printed it. */
  datatype GitFileChange = GitFileChange(path: string, change: FileChange, counts: Option<LineCounts>)

  datatype Node = Node(
    name: string,
    kind: Kind,
    badge: Option<FileChange>,
    expanded: bool,
    children: seq<Node>,
    counts: Option<LineCounts>
  )

  // ---------- merging git's answer into a map, in key order ----------

  /** One binding of the map from components to badge and counts. */
  datatype Entry = Entry(path: Path, badge: FileChange, counts: Option<LineCounts>)

  function Precedence(change: FileChange): nat {
    match change
    case Modified => 0
    case Deleted => 1
    case Added => 2
  }

  function OrElse<T>(first: Option<T>, second: Option<T>): Option<T> {
    if first.Some? then first else second
  }

  /** `entry(components).or_insert(..)` followed by the two merges. The map is
      its bindings in key order, which is how a `BTreeMap` is walked. */
  function Upsert(entries: seq<Entry>, path: Path, change: FileChange, counts: Option<LineCounts>): seq<Entry> {
    if entries == [] then [Entry(path, change, counts)]
    else if entries[0].path == path then
      var badge := if Precedence(change) > Precedence(entries[0].badge) then change else entries[0].badge;
      [Entry(path, badge, OrElse(entries[0].counts, counts))] + entries[1..]
    else if KeyLess(path, entries[0].path) then [Entry(path, change, counts)] + entries
    else [entries[0]] + Upsert(entries[1..], path, change, counts)
  }

  function Record(entries: seq<Entry>, change: GitFileChange): seq<Entry> {
    match RelativeComponents(change.path)
    case None => entries
    case Some(path) => Upsert(entries, path, change.change, change.counts)
  }

  function Collect(changes: seq<GitFileChange>): seq<Entry> {
    if changes == [] then []
    else Record(Collect(changes[..|changes| - 1]), changes[|changes| - 1])
  }

  // ---------- inserting one path ----------

  /** Index of the first child called `name`, or the number of children. */
  function FindName(ts: seq<Node>, name: string): (i: nat)
    ensures i <= |ts|
    ensures i < |ts| ==> ts[i].name == name
    ensures forall j :: 0 <= j < i ==> ts[j].name != name
  {
    if ts == [] then 0 else if ts[0].name == name then 0 else 1 + FindName(ts[1..], name)
  }

  function FileNode(name: string, badge: FileChange, counts: Option<LineCounts>): Node {
    Node(name, File, Some(badge), false, [], counts)
  }

  function EmptyDirectory(name: string): Node {
    Node(name, Directory, None, false, [], None)
  }

  /** `insert_path` seen from the children of the node it is called on. A child
      is found by name alone, whatever its kind. */
  function Insert(ts: seq<Node>, path: Path, badge: FileChange, counts: Option<LineCounts>): seq<Node>
    decreases |path|
  {
    if path == [] then ts
    else if |path| == 1 then ts + [FileNode(path[0], badge, counts)]
    else
      var i := FindName(ts, path[0]);
      if i < |ts| then ts[i := ts[i].(children := Insert(ts[i].children, path[1..], badge, counts))]
      else ts + [EmptyDirectory(path[0]).(children := Insert([], path[1..], badge, counts))]
  }

  function InsertAll(ts: seq<Node>, entries: seq<Entry>): seq<Node> {
    if entries == [] then ts
    else
      var last := entries[|entries| - 1];
      Insert(InsertAll(ts, entries[..|entries| - 1]), last.path, last.badge, last.counts)
  }

  // ---------- folding single-child chains ----------

  predicate HoldsOnlyADirectory(c: Node) {
    c.kind == Directory && |c.children| == 1 && c.children[0].kind == Directory
  }

  function Absorb(c: Node): Node {
    if HoldsOnlyADirectory(c) then
      c.(name := c.name + ['/'] + c.children[0].name, children := c.children[0].children)
    else c
  }

  /** `merge_single_child_chains` on every child. */
  function MergeChains(ts: seq<Node>): (r: seq<Node>)
    ensures |r| == |ts|
    decreases ts
  {
    if ts == [] then []
    else [Absorb(ts[0].(children := MergeChains(ts[0].children)))] + MergeChains(ts[1..])
  }

  // ---------- ordering siblings ----------

  /** `first_segment`. */
  function FirstSegment(name: string): string {
    Split(name, '/')[0]
  }

  function KindRank(kind: Kind): nat {
    if kind == File then 0 else 1
  }

  /** The comparator of `sort_children` answers "less". */
  predicate Before(a: Node, b: Node) {
    KindRank(a.kind) < KindRank(b.kind) ||
    (a.kind == b.kind && Less(FirstSegment(a.name), FirstSegment(b.name)))
  }

  /** Put `c` into sorted siblings, in front of the ones it ties with. */
  function InsertSibling(c: Node, sorted: seq<Node>): seq<Node> {
    if sorted == [] then [c]
    else if Before(sorted[0], c) then [sorted[0]] + InsertSibling(c, sorted[1..])
    else [c] + sorted
  }

  /** The stable `sort_by` of one child list. */
  function SortSiblings(ts: seq<Node>): seq<Node> {
    if ts == [] then [] else InsertSibling(ts[0], SortSiblings(ts[1..]))
  }

  /** `sort_children` below a node: each child's own children, then the list. */
  function SortTree(ts: seq<Node>): seq<Node>
    decreases ts
  {
    if ts == [] then []
    else InsertSibling(ts[0].(children := SortTree(ts[0].children)), SortTree(ts[1..]))
  }

  // ---------- expansion and counts ----------

  /** What `compute_expansion` answers for a list of children. */
  predicate HasChange(ts: seq<Node>)
    decreases ts
  {
    ts != [] &&
    ((if ts[0].kind == File then ts[0].badge.Some? else HasChange(ts[0].children)) || HasChange(ts[1..]))
  }

  function Expand(ts: seq<Node>): (r: seq<Node>)
    ensures |r| == |ts|
    decreases ts
  {
    if ts == [] then []
    else
      var c := ts[0];
      [if c.kind == File then c else c.(expanded := HasChange(c.children), children := Expand(c.children))]
      + Expand(ts[1..])
  }

  function SaturatingAdd(a: Lines, b: Lines): Lines {
    if a + b <= U32_MAX then a + b else U32_MAX
  }

  function AddCounts(a: LineCounts, b: LineCounts): LineCounts {
    LineCounts(SaturatingAdd(a.added, b.added), SaturatingAdd(a.removed, b.removed))
  }

  /** One step of `filter_map(..).reduce(add)`: an absent side is skipped. */
  function Combine(a: Option<LineCounts>, b: Option<LineCounts>): Option<LineCounts> {
    if a.None? then b else if b.None? then a else Some(AddCounts(a.value, b.value))
  }

  /** What `compute_counts` answers for a list of children. */
  function Total(ts: seq<Node>): Option<LineCounts>
    decreases ts
  {
    if ts == [] then None
    else Combine(if ts[0].kind == File then ts[0].counts else Total(ts[0].children), Total(ts[1..]))
  }

  function Count(ts: seq<Node>): (r: seq<Node>)
    ensures |r| == |ts|
    decreases ts
  {
    if ts == [] then []
    else
      var c := ts[0];
      [if c.kind == File then c else c.(counts := Total(c.children), children := Count(c.children))]
      + Count(ts[1..])
  }

  // ---------- the whole pipeline ----------

  function Rows(changes: seq<GitFileChange>): seq<Node> {
    SortTree(MergeChains(InsertAll([], Collect(changes))))
  }

  /** The tree on screen: children of the synthetic root. */
  function BuildChildren(changes: seq<GitFileChange>): seq<Node> {
    Count(Expand(Rows(changes)))
  }

  function BuildTree(rootName: string, changes: seq<GitFileChange>): Node {
    var rows := Rows(changes);
    Node(rootName, Directory, None, HasChange(rows), BuildChildren(changes), Total(Expand(rows)))
  }

  /** `node_at`: follow a chain of names. */
  function NodeAt(node: Node, key: seq<string>): Option<Node>
    decreases |key|
  {
    if key == [] then Some(node)
    else
      var i := FindName(node.children, key[0]);
      if i < |node.children| then NodeAt(node.children[i], key[1..]) else None
  }

  // ---------- what the tree shows ----------

  /** The components one row's name stands for. */
  function Segments(c: Node): Path {
    Split(c.name, '/')
  }

  /** A file row with the path its chain of names spells. */
  datatype Leaf = Leaf(path: Path, badge: Option<FileChange>, counts: Option<LineCounts>)

  function Under(above: Path, leaves: seq<Leaf>): (r: seq<Leaf>)
    ensures |r| == |leaves|
    ensures forall i :: 0 <= i < |r| ==> r[i] == leaves[i].(path := above + leaves[i].path)
  {
    if leaves == [] then []
    else [leaves[0].(path := above + leaves[0].path)] + Under(above, leaves[1..])
  }

  function NodeLeaves(c: Node): seq<Leaf>
    decreases c, 1
  {
    if c.kind == File then [Leaf(Segments(c), c.badge, c.counts)] else Under(Segments(c), Leaves(c.children))
  }

  /** The file rows of a forest, depth first. A file row has no rows below it. */
  function Leaves(ts: seq<Node>): seq<Leaf>
    decreases ts
  {
    if ts == [] then [] else NodeLeaves(ts[0]) + Leaves(ts[1..])
  }

  function LeafPaths(leaves: seq<Leaf>): (r: seq<Path>)
    ensures |r| == |leaves|
    ensures forall i :: 0 <= i < |r| ==> r[i] == leaves[i].path
  {
    if leaves == [] then [] else [leaves[0].path] + LeafPaths(leaves[1..])
  }
}
