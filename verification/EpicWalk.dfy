/** The walk from an epic up its parent links, looking for the CVE feed's role. */
module EpicWalk {
  import opened Prelude

  datatype FeedRole = NoRole | ReviewsParent | MyReviews | TeamReviews | Bots | Cve

  datatype Epic = Epic(id: int, role: FeedRole, parent: Option<int>)

  /** Rows are stored under their own ids. */
  ghost predicate Keyed(db: map<int, Epic>) {
    forall id :: id in db ==> db[id].id == id
  }

  /** The epic `k` parent links up, `None` past a missing parent or row. The walk
      knows its first epic from its caller, whatever the store says of it by now. */
  ghost function Above(db: map<int, Epic>, epic: Epic, k: nat): (r: Option<Epic>) {
    if k == 0 then Some(epic)
    else
      match Above(db, epic, k - 1)
      case None => None
      case Some(e) =>
        var rows := db[epic.id := epic];
        if e.parent.Some? && e.parent.value in rows then Some(rows[e.parent.value]) else None
  }

  ghost predicate CveAt(db: map<int, Epic>, epic: Epic, k: nat) {
    Above(db, epic, k).Some? && Above(db, epic, k).value.role == Cve
  }

  lemma {:induction false} AboveIsRow(db: map<int, Epic>, epic: Epic, k: nat)
    requires Keyed(db)
    ensures Above(db, epic, k).Some? ==>
              var e := Above(db, epic, k).value;
              var rows := db[epic.id := epic];
              e.id in rows && e == rows[e.id]
  {
    if k > 0 {
      AboveIsRow(db, epic, k - 1);
      var rows := db[epic.id := epic];
      forall id | id in rows
        ensures rows[id].id == id
      {
        assert id == epic.id || id in db;
      }
    }
  }

  lemma {:induction false} AboveRepeats(db: map<int, Epic>, epic: Epic, j: nat, n: nat, i: nat)
    requires Above(db, epic, j) == Above(db, epic, n)
    ensures Above(db, epic, j + i) == Above(db, epic, n + i)
  {
    if i > 0 {
      AboveRepeats(db, epic, j, n, i - 1);
    }
  }

  /** Once the links have come round, everything above has been seen. */
  lemma {:induction false} NothingNewAbove(db: map<int, Epic>, epic: Epic, j: nat, n: nat, k: nat)
    requires j < n && Above(db, epic, j) == Above(db, epic, n)
    requires forall i :: 0 <= i < n ==> !CveAt(db, epic, i)
    ensures !CveAt(db, epic, k)
    decreases k
  {
    if k >= n {
      AboveRepeats(db, epic, j, n, k - n);
      NothingNewAbove(db, epic, j, n, j + (k - n));
    }
  }

  lemma {:induction false} NothingAboveNone(db: map<int, Epic>, epic: Epic, n: nat, k: nat)
    requires Above(db, epic, n) == None && n <= k
    ensures Above(db, epic, k) == None
  {
    if n < k {
      NothingAboveNone(db, epic, n, k - 1);
    }
  }

  /** `walk_to_cve_root`: ends on any map of rows, cycles and gaps included, and
      answers whether some epic at or above this one has the CVE role. */
  method WalkToCveRoot(epic: Epic, db: map<int, Epic>) returns (cve: bool)
    requires Keyed(db)
    ensures cve <==> exists k: nat :: CveAt(db, epic, k)
  {
    var seen: set<int> := {};
    var cursor, role, parent := epic.id, epic.role, epic.parent;
    ghost var n: nat := 0;
    while true
      invariant seen <= db.Keys + {epic.id} && cursor in db.Keys + {epic.id}
      invariant Above(db, epic, n).Some? && Above(db, epic, n).value.id == cursor
      invariant n == 0 || cursor != epic.id ==> Above(db, epic, n) == Some(Epic(cursor, role, parent))
      invariant n > 0 ==> epic.id in seen
      invariant forall id :: id in seen ==>
                  exists j :: 0 <= j < n && Above(db, epic, j).Some? && Above(db, epic, j).value.id == id
      invariant forall j :: 0 <= j < n ==> !CveAt(db, epic, j)
      decreases (db.Keys + {epic.id}) - seen
    {
      if cursor in seen {
        ghost var j :| 0 <= j < n && Above(db, epic, j).Some? && Above(db, epic, j).value.id == cursor;
        AboveIsRow(db, epic, j);
        AboveIsRow(db, epic, n);
        forall k: nat
          ensures !CveAt(db, epic, k)
        {
          NothingNewAbove(db, epic, j, n, k);
        }
        return false;
      }
      seen := seen + {cursor};
      if role == Cve {
        assert CveAt(db, epic, n);
        return true;
      }
      if parent.None? {
        NoneAbove(db, epic, n);
        return false;
      }
      if parent.value !in db {
        if parent.value == epic.id {
          BackAtTheStart(db, epic, n);
        } else {
          NoneAbove(db, epic, n);
        }
        return false;
      }
      var row := db[parent.value];
      assert row.id == parent.value && parent.value in db.Keys;
      n := n + 1;
      cursor, role, parent := row.id, row.role, row.parent;
    }
  }

  lemma NoneAbove(db: map<int, Epic>, epic: Epic, n: nat)
    requires Above(db, epic, n + 1) == None
    requires forall j :: 0 <= j <= n ==> !CveAt(db, epic, j)
    ensures forall k: nat :: !CveAt(db, epic, k)
  {
    forall k: nat
      ensures !CveAt(db, epic, k)
    {
      if k > n {
        NothingAboveNone(db, epic, n + 1, k);
      }
    }
  }

  lemma BackAtTheStart(db: map<int, Epic>, epic: Epic, n: nat)
    requires Above(db, epic, n + 1) == Some(epic)
    requires forall j :: 0 <= j <= n ==> !CveAt(db, epic, j)
    ensures forall k: nat :: !CveAt(db, epic, k)
  {
    forall k: nat
      ensures !CveAt(db, epic, k)
    {
      NothingNewAbove(db, epic, 0, n + 1, k);
    }
  }
}
