/** Which delivered request rows a board acts on: each to serve once until its
    claim is released, each failed teardown once per time it was seen open. */
module RequestObservers {
  import opened Prelude

  datatype Kind = WrapUp | ExitSession | Close
  datatype Action = RebaseAction | PrAction | DoneAction
  datatype RowState = Requested | Running | Finished | Failed

  /** A request row, reduced to what the observers read. */
  datatype Row = Row(id: int, host: string, kind: Kind, action: Action, state: RowState, window: Option<string>)

  predicate IsTeardown(kind: Kind) {
    kind == ExitSession || kind == Close
  }

  predicate HasHostWork(r: Row) {
    IsTeardown(r.kind) || r.action == RebaseAction
  }

  predicate OpenExit(r: Row, host: string) {
    r.host == host && IsTeardown(r.kind) && (r.state == Requested || r.state == Running)
  }

  predicate FailedExit(r: Row, host: string) {
    r.host == host && IsTeardown(r.kind) && r.state == Failed && r.window.Some?
  }

  predicate Servable(r: Row, host: string) {
    r.host == host && r.state == Requested && HasHostWork(r)
  }

  /** A dispatch request: its host always has work to do, and it is no teardown. */
  type DispatchRow = r: Row | HasHostWork(r) && !IsTeardown(r.kind)
    witness Row(0, "", WrapUp, RebaseAction, Requested, None)

  // ---------- one delivery ----------

  /** The rows picked by `filter(.. && set.remove(&r.id))`, and what is left. */
  function TakeOpen(rows: seq<Row>, host: string, open: set<int>): (seq<Row>, set<int>)
    decreases rows
  {
    if rows == [] then ([], open)
    else if FailedExit(rows[0], host) && rows[0].id in open then
      var (rest, left) := TakeOpen(rows[1..], host, open - {rows[0].id});
      ([rows[0]] + rest, left)
    else TakeOpen(rows[1..], host, open)
  }

  /** The rows picked by `filter(|r| set.insert(r.id))`, and the grown set. */
  function TakeUnserved(rows: seq<Row>, host: string, served: set<int>): (seq<Row>, set<int>)
    decreases rows
  {
    if rows == [] then ([], served)
    else if Servable(rows[0], host) && rows[0].id !in served then
      var (rest, grown) := TakeUnserved(rows[1..], host, served + {rows[0].id});
      ([rows[0]] + rest, grown)
    else TakeUnserved(rows[1..], host, served)
  }

  function OpenIds(rows: seq<Row>, host: string): set<int> {
    set r | r in rows && OpenExit(r, host) :: r.id
  }

  class SessionRequestObserver {
    const host: string
    var served: set<int>
    var openExits: set<int>

    constructor (host: string)
      ensures this.host == host && served == {} && openExits == {}
    {
      this.host, served, openExits := host, {}, {};
    }

    /** `remember_open_exits`. */
    method NoteOpen(rows: seq<Row>)
      modifies this`openExits
      ensures openExits == old(openExits) + OpenIds(rows, host)
    {
      for i := 0 to |rows|
        invariant openExits == old(openExits) + OpenIds(rows[..i], host)
      {
        assert rows[..i + 1] == rows[..i] + [rows[i]];
        if OpenExit(rows[i], host) {
          openExits := openExits + {rows[i].id};
        }
      }
      assert rows[..|rows|] == rows;
    }

    /** The rows to serve now, each put among the served as it is taken. */
    method Unserved(rows: seq<Row>) returns (serve: seq<Row>)
      modifies this`served
      ensures serve == TakeUnserved(rows, host, old(served)).0 && served == TakeUnserved(rows, host, old(served)).1
    {
      serve := [];
      assert rows[0..] == rows;
      for i := 0 to |rows|
        invariant serve + TakeUnserved(rows[i..], host, served).0 == TakeUnserved(rows, host, old(served)).0
        invariant TakeUnserved(rows[i..], host, served).1 == TakeUnserved(rows, host, old(served)).1
      {
        assert rows[i..][0] == rows[i] && rows[i..][1..] == rows[i + 1..];
        if Servable(rows[i], host) && rows[i].id !in served {
          served := served + {rows[i].id};
          ghost var rest := TakeUnserved(rows[i + 1..], host, served).0;
          assert (serve + [rows[i]]) + rest == serve + ([rows[i]] + rest);
          serve := serve + [rows[i]];
        }
      }
      assert rows[|rows|..] == [];
    }

    /** `observe`: the rows to serve and the windows to tear down. */
    method Observe(rows: seq<Row>) returns (serve: seq<Row>, tearDown: seq<Row>)
      modifies this
      ensures tearDown == TakeOpen(rows, host, old(openExits)).0
      ensures openExits == TakeOpen(rows, host, old(openExits)).1 + OpenIds(rows, host)
      ensures serve == TakeUnserved(rows, host, old(served)).0 && served == TakeUnserved(rows, host, old(served)).1
    {
      tearDown := [];
      assert rows[0..] == rows;
      for i := 0 to |rows|
        invariant served == old(served)
        invariant tearDown + TakeOpen(rows[i..], host, openExits).0 == TakeOpen(rows, host, old(openExits)).0
        invariant TakeOpen(rows[i..], host, openExits).1 == TakeOpen(rows, host, old(openExits)).1
      {
        assert rows[i..][0] == rows[i] && rows[i..][1..] == rows[i + 1..];
        if FailedExit(rows[i], host) && rows[i].id in openExits {
          openExits := openExits - {rows[i].id};
          ghost var rest := TakeOpen(rows[i + 1..], host, openExits).0;
          assert (tearDown + [rows[i]]) + rest == tearDown + ([rows[i]] + rest);
          tearDown := tearDown + [rows[i]];
        }
      }
      assert rows[|rows|..] == [];
      serve := Unserved(rows);
      NoteOpen(rows);
    }

    method Release(id: int)
      modifies this`served
      ensures served == old(served) - {id}
    {
      served := served - {id};
    }

    method Reopen(id: int)
      modifies this`openExits
      ensures openExits == old(openExits) + {id}
    {
      openExits := openExits + {id};
    }
  }

  class DispatchRequestObserver {
    const host: string
    var served: set<int>

    constructor (host: string)
      ensures this.host == host && served == {}
    {
      this.host, served := host, {};
    }

    /** `observe`: what the session observer would serve of the same rows. */
    method Observe(rows: seq<DispatchRow>) returns (serve: seq<Row>)
      modifies this
      ensures serve == TakeUnserved(rows, host, old(served)).0 && served == TakeUnserved(rows, host, old(served)).1
    {
      serve := [];
      assert rows[0..] == rows;
      for i := 0 to |rows|
        invariant serve + TakeUnserved(rows[i..], host, served).0 == TakeUnserved(rows, host, old(served)).0
        invariant TakeUnserved(rows[i..], host, served).1 == TakeUnserved(rows, host, old(served)).1
      {
        assert rows[i..][0] == rows[i] && rows[i..][1..] == rows[i + 1..];
        if rows[i].host == host && rows[i].state == Requested && rows[i].id !in served {
          served := served + {rows[i].id};
          ghost var rest := TakeUnserved(rows[i + 1..], host, served).0;
          assert (serve + [rows[i]]) + rest == serve + ([rows[i]] + rest);
          serve := serve + [rows[i]];
        }
      }
      assert rows[|rows|..] == [];
    }

    method Release(id: int)
      modifies this
      ensures served == old(served) - {id}
    {
      served := served - {id};
    }
  }

  // ---------- any history ----------

  datatype Event = Noted(rows: seq<Row>) | Observed(rows: seq<Row>) | Released(id: int) | Reopened(id: int)

  datatype Board = Board(served: set<int>, openExits: set<int>)

  ghost function After(b: Board, e: Event, host: string): Board {
    match e
    case Noted(rows) => b.(openExits := b.openExits + OpenIds(rows, host))
    case Observed(rows) =>
      Board(TakeUnserved(rows, host, b.served).1, TakeOpen(rows, host, b.openExits).1 + OpenIds(rows, host))
    case Released(id) => b.(served := b.served - {id})
    case Reopened(id) => b.(openExits := b.openExits + {id})
  }

  ghost function Replay(events: seq<Event>, host: string): Board {
    if events == [] then Board({}, {})
    else After(Replay(events[..|events| - 1], host), events[|events| - 1], host)
  }

  /** No delivery carries one id twice. */
  ghost predicate DistinctIds(rows: seq<Row>) {
    forall i, j :: 0 <= i < j < |rows| ==> rows[i].id != rows[j].id
  }

  lemma {:induction false} TakeOpenMembers(rows: seq<Row>, host: string, open: set<int>, r: Row)
    requires DistinctIds(rows)
    ensures r in TakeOpen(rows, host, open).0 <==> r in rows && FailedExit(r, host) && r.id in open
    decreases rows
  {
    if rows != [] {
      assert rows == [rows[0]] + rows[1..];
      TakeOpenMembers(rows[1..], host, open - {rows[0].id}, r);
      TakeOpenMembers(rows[1..], host, open, r);
      if r in rows[1..] {
        var i :| 0 <= i < |rows[1..]| && rows[1..][i] == r;
        assert rows[i + 1] == r;
      }
    }
  }

  lemma {:induction false} TakeOpenLeaves(rows: seq<Row>, host: string, open: set<int>, id: int)
    ensures id in TakeOpen(rows, host, open).1 <==>
            id in open && !exists r :: r in rows && r.id == id && FailedExit(r, host)
    decreases rows
  {
    if rows != [] {
      assert rows == [rows[0]] + rows[1..];
      assert forall r :: r in rows <==> r == rows[0] || r in rows[1..];
      TakeOpenLeaves(rows[1..], host, open - {rows[0].id}, id);
      TakeOpenLeaves(rows[1..], host, open, id);
    }
  }

  lemma {:induction false} TakeUnservedMembers(rows: seq<Row>, host: string, served: set<int>, r: Row)
    requires DistinctIds(rows)
    ensures r in TakeUnserved(rows, host, served).0 <==> r in rows && Servable(r, host) && r.id !in served
    decreases rows
  {
    if rows != [] {
      assert rows == [rows[0]] + rows[1..];
      TakeUnservedMembers(rows[1..], host, served + {rows[0].id}, r);
      TakeUnservedMembers(rows[1..], host, served, r);
      if r in rows[1..] {
        var i :| 0 <= i < |rows[1..]| && rows[1..][i] == r;
        assert rows[i + 1] == r;
      }
    }
  }

  lemma {:induction false} TakeUnservedGrows(rows: seq<Row>, host: string, served: set<int>, id: int)
    ensures id in TakeUnserved(rows, host, served).1 <==>
            id in served || exists r :: r in rows && r.id == id && Servable(r, host)
    decreases rows
  {
    if rows != [] {
      assert rows == [rows[0]] + rows[1..];
      assert forall r :: r in rows <==> r == rows[0] || r in rows[1..];
      TakeUnservedGrows(rows[1..], host, served + {rows[0].id}, id);
      TakeUnservedGrows(rows[1..], host, served, id);
    }
  }

  /** Some of the rows, in the order they came. */
  ghost predicate Among(taken: seq<Row>, rows: seq<Row>)
    decreases rows
  {
    taken == [] ||
    (rows != [] && (Among(taken, rows[1..]) || (taken[0] == rows[0] && Among(taken[1..], rows[1..]))))
  }

  /** What a delivery hands out comes in the order of the delivery. */
  lemma {:induction false} TakenInOrder(rows: seq<Row>, host: string, served: set<int>, open: set<int>)
    ensures Among(TakeUnserved(rows, host, served).0, rows) && Among(TakeOpen(rows, host, open).0, rows)
    decreases rows
  {
    if rows != [] {
      var r := rows[0];
      TakenInOrder(rows[1..], host, served + {r.id}, open - {r.id});
      TakenInOrder(rows[1..], host, served, open);
    }
  }

  /** The row asks to end a session, and its host has not finished. */
  ghost predicate SeenOpen(r: Row, host: string) {
    r.host == host && r.kind != WrapUp && r.state != Finished && r.state != Failed
  }

  /** The row's session was to end, its host failed, and its window is known. */
  ghost predicate SeenFailed(r: Row, host: string) {
    r.host == host && r.kind != WrapUp && r.state == Failed && r.window != None
  }

  /** The row waits for its host, who has a session to end or a rebase to do. */
  ghost predicate SeenRequested(r: Row, host: string) {
    r.host == host && r.state == Requested && (r.kind == WrapUp ==> r.action == RebaseAction)
  }

  /** The event shows the exit open, or asks for its tear-down again. */
  ghost predicate MarksOpen(e: Event, host: string, id: int) {
    match e
    case Noted(rows) => exists r :: r in rows && r.id == id && SeenOpen(r, host)
    case Observed(rows) => exists r :: r in rows && r.id == id && SeenOpen(r, host)
    case Released(_) => false
    case Reopened(i) => i == id
  }

  /** The event hands the tear-down out, if it was due. */
  ghost predicate ShowsFailed(e: Event, host: string, id: int) {
    e.Observed? && exists r :: r in e.rows && r.id == id && SeenFailed(r, host)
  }

  ghost predicate OpenSince(events: seq<Event>, host: string, i: nat, id: int)
    requires i < |events|
  {
    MarksOpen(events[i], host, id) && forall j :: i < j < |events| ==> !ShowsFailed(events[j], host, id)
  }

  lemma OpenSinceStep(events: seq<Event>, host: string, i: nat, id: int)
    requires i + 1 < |events|
    ensures var n := |events| - 1;
            OpenSince(events, host, i, id) <==> OpenSince(events[..n], host, i, id) && !ShowsFailed(events[n], host, id)
  {
    var n := |events| - 1;
    assert forall j :: 0 <= j < n ==> events[..n][j] == events[j];
  }

  lemma OpenAfter(b: Board, e: Event, host: string, id: int)
    ensures id in After(b, e, host).openExits <==>
            MarksOpen(e, host, id) || (id in b.openExits && !ShowsFailed(e, host, id))
  {
    if e.Observed? {
      TakeOpenLeaves(e.rows, host, b.openExits, id);
    }
  }

  lemma {:induction false} OpenExitsMeaning(events: seq<Event>, host: string, id: int)
    ensures id in Replay(events, host).openExits <==> exists i :: 0 <= i < |events| && OpenSince(events, host, i, id)
  {
    if events != [] {
      var n := |events| - 1;
      OpenExitsMeaning(events[..n], host, id);
      OpenAfter(Replay(events[..n], host), events[n], host, id);
      forall i | 0 <= i < n
        ensures OpenSince(events, host, i, id) <==>
                OpenSince(events[..n], host, i, id) && !ShowsFailed(events[n], host, id)
      {
        OpenSinceStep(events, host, i, id);
      }
      assert OpenSince(events, host, n, id) <==> MarksOpen(events[n], host, id);
    }
  }

  /** After any history, a delivery tears a row down exactly when it is this host's
      failed teardown with a window, and some earlier delivery or reopen marked it
      open and no delivery has shown it failed since. A row first seen failed is
      history. */
  lemma TornDownIff(events: seq<Event>, host: string, rows: seq<Row>, r: Row)
    requires DistinctIds(rows)
    ensures r in TakeOpen(rows, host, Replay(events, host).openExits).0 <==>
            r in rows && SeenFailed(r, host) && exists i :: 0 <= i < |events| && OpenSince(events, host, i, r.id)
  {
    TakeOpenMembers(rows, host, Replay(events, host).openExits, r);
    OpenExitsMeaning(events, host, r.id);
  }

  // ---------- serving ----------

  ghost predicate ShowsServable(e: Event, host: string, id: int) {
    e.Observed? && exists r :: r in e.rows && r.id == id && SeenRequested(r, host)
  }

  ghost predicate ServedSince(events: seq<Event>, host: string, i: nat, id: int)
    requires i < |events|
  {
    ShowsServable(events[i], host, id) && forall j :: i < j < |events| ==> events[j] != Released(id)
  }

  lemma ServedSinceStep(events: seq<Event>, host: string, i: nat, id: int)
    requires i + 1 < |events|
    ensures var n := |events| - 1;
            ServedSince(events, host, i, id) <==> ServedSince(events[..n], host, i, id) && events[n] != Released(id)
  {
    var n := |events| - 1;
    assert forall j :: 0 <= j < n ==> events[..n][j] == events[j];
  }

  lemma {:induction false} ServedMeaning(events: seq<Event>, host: string, id: int)
    ensures id in Replay(events, host).served <==> exists i :: 0 <= i < |events| && ServedSince(events, host, i, id)
  {
    if events != [] {
      var n := |events| - 1;
      var before := Replay(events[..n], host);
      ServedMeaning(events[..n], host, id);
      if events[n].Observed? {
        TakeUnservedGrows(events[n].rows, host, before.served, id);
      }
      forall i | 0 <= i < n
        ensures ServedSince(events, host, i, id) <==> ServedSince(events[..n], host, i, id) && events[n] != Released(id)
      {
        ServedSinceStep(events, host, i, id);
      }
      assert ServedSince(events, host, n, id) <==> ShowsServable(events[n], host, id);
    }
  }

  /** After any history, a delivery hands a row out to serve exactly when it is this
      host's requested row with work to do and no delivery has shown it so since the
      last release: none is missed, none comes twice. */
  lemma ServedIff(events: seq<Event>, host: string, rows: seq<Row>, r: Row)
    requires DistinctIds(rows)
    ensures r in TakeUnserved(rows, host, Replay(events, host).served).0 <==>
            r in rows && SeenRequested(r, host) && !exists i :: 0 <= i < |events| && ServedSince(events, host, i, r.id)
  {
    TakeUnservedMembers(rows, host, Replay(events, host).served, r);
    ServedMeaning(events, host, r.id);
  }

  /** How often a row was handed out to serve, counting rows. */
  ghost function CountId(rows: seq<Row>, id: int): nat {
    if rows == [] then 0 else (if rows[0].id == id then 1 else 0) + CountId(rows[1..], id)
  }

  ghost function HandOuts(events: seq<Event>, host: string, id: int): nat {
    if events == [] then 0
    else
      var n := |events| - 1;
      HandOuts(events[..n], host, id)
      + (if events[n].Observed?
         then CountId(TakeUnserved(events[n].rows, host, Replay(events[..n], host).served).0, id) else 0)
  }

  ghost function Releases(events: seq<Event>, id: int): nat {
    if events == [] then 0
    else Releases(events[..|events| - 1], id) + (if events[|events| - 1] == Released(id) then 1 else 0)
  }

  lemma {:induction false} TakenOnce(rows: seq<Row>, host: string, served: set<int>, id: int)
    ensures var (taken, grown) := TakeUnserved(rows, host, served);
            CountId(taken, id) + (if id in served then 1 else 0) == (if id in grown then 1 else 0)
    decreases rows
  {
    if rows != [] {
      var r := rows[0];
      if Servable(r, host) && r.id !in served {
        TakenOnce(rows[1..], host, served + {r.id}, id);
        var rest := TakeUnserved(rows[1..], host, served + {r.id}).0;
        assert ([r] + rest)[1..] == rest;
      } else {
        TakenOnce(rows[1..], host, served, id);
      }
    }
  }

  /** A row is handed out at most once more than it was released, however often it
      is delivered, even twice in one delivery. */
  lemma {:induction false} HandOutsBounded(events: seq<Event>, host: string, id: int)
    ensures HandOuts(events, host, id) <= Releases(events, id) + (if id in Replay(events, host).served then 1 else 0)
    ensures HandOuts(events, host, id) <= 1 + Releases(events, id)
  {
    if events != [] {
      var n := |events| - 1;
      HandOutsBounded(events[..n], host, id);
      if events[n].Observed? {
        TakenOnce(events[n].rows, host, Replay(events[..n], host).served, id);
      }
    }
  }
}
