/** What lost marks cost. The role and content marks on a pane are best effort; the
    record of what was shown, and of which marks stuck, says which panes can be killed
    and which diff renderers outlive the tree. */
module LowerPaneMarks {
  import opened LowerPane

  /** One split or respawn that was carried out. */
  datatype Show = Show(pane: nat, program: Program, roleStuck: bool, markStuck: bool)

  /** The content mark a program is shown under. */
  function MarkFor(program: Program): Content {
    if program == Editor then ShowsEditor else ShowsDiff
  }

  function ShowAt(w: World, i: nat, program: Program, a: Answers): seq<Show> {
    if a.shows then
      [Show(if i < |w.panes| then w.panes[i].id else w.nextId, program, a.marksRole, a.marksContent)]
    else []
  }

  /** What one event shows: a key that opens a diff where no diff is marked, or an
      editor the tree could put up. */
  function ShowsOf(w: World, e: Event): seq<Show> {
    var i := LowerIndex(w.panes);
    match e
    case Toggle(path, a) =>
      var marked := i < |w.panes| && w.panes[i].content != ShowsEditor;
      if a.writes && a.inTmux && a.looksUp && path !in w.openDiffs && !marked
      then ShowAt(w, i, DiffRenderer, a)
      else []
    case View(fileExists, a) =>
      if a.inTmux && fileExists && a.looksUp then ShowAt(w, i, Editor, a) else []
    case Gone(_) => []
  }

  /** Everything shown during a run, in order. */
  function Shows(w: World, events: seq<Event>): seq<Show> {
    if events == [] then []
    else
      var n := |events| - 1;
      Shows(w, events[..n]) + ShowsOf(Run(w, events[..n]), events[n])
  }

  // ---------- reading the record ----------

  predicate ShownIn(h: seq<Show>, id: nat) {
    h != [] && (h[|h| - 1].pane == id || ShownIn(h[..|h| - 1], id))
  }

  /** The last show in a pane. */
  function LastShow(h: seq<Show>, id: nat): Show
    requires ShownIn(h, id)
  {
    if h[|h| - 1].pane == id then h[|h| - 1] else LastShow(h[..|h| - 1], id)
  }

  /** The last content mark that stuck in a pane. */
  function LastMark(h: seq<Show>, id: nat): Content {
    if h == [] then Unmarked
    else if h[|h| - 1].pane == id && h[|h| - 1].markStuck then MarkFor(h[|h| - 1].program)
    else LastMark(h[..|h| - 1], id)
  }

  /** The role mark stuck when a pane was split off. */
  predicate GotRole(h: seq<Show>, id: nat) {
    && h != []
    && (if ShownIn(h[..|h| - 1], id) then GotRole(h[..|h| - 1], id)
        else h[|h| - 1].pane == id && h[|h| - 1].roleStuck)
  }

  /** The record tells what a pane is. */
  predicate Tells(h: seq<Show>, p: Pane) {
    if ShownIn(h, p.id) then
      && p.running == LastShow(h, p.id).program
      && p.content == LastMark(h, p.id)
      && p.role == (if GotRole(h, p.id) then DiffRole else NoRole)
    else
      p.role != DiffRole && (p.running == Agent || p.running == TreeRenderer)
  }

  // ---------- the record is kept ----------

  ghost predicate DistinctIds(panes: seq<Pane>) {
    forall i, j :: 0 <= i < j < |panes| ==> panes[i].id != panes[j].id
  }

  ghost predicate OneLower(panes: seq<Pane>) {
    forall i, j :: 0 <= i < j < |panes| ==> panes[i].role != DiffRole || panes[j].role != DiffRole
  }

  ghost predicate AllTold(h: seq<Show>, panes: seq<Pane>, bound: nat) {
    forall p :: p in panes ==> p.id < bound && Tells(h, p)
  }

  ghost predicate Killable(panes: seq<Pane>) {
    forall p :: p in panes ==> p.role == DiffRole && p.content != ShowsEditor
  }

  ghost predicate Apart(panes: seq<Pane>, killed: seq<Pane>) {
    forall p, q :: p in panes && q in killed ==> p.id != q.id
  }

  /** `h` is everything ever shown below an agent window: it tells what its panes are
      and what the killed ones were, and no two panes have the diff role. */
  ghost predicate Recorded(h: seq<Show>, w: World) {
    && DistinctIds(w.panes) && OneLower(w.panes) && AllTold(h, w.panes, w.nextId)
    && AllTold(h, w.killed, w.nextId) && Killable(w.killed) && Apart(w.panes, w.killed)
    && forall id :: id >= w.nextId ==> !ShownIn(h, id)
  }

  /** A window without a lower pane, as a first tree finds it, has nothing on record. */
  lemma BareWindowRecorded(w: World)
    requires w.killed == [] && DistinctIds(w.panes)
    requires forall p :: p in w.panes ==>
               p.id < w.nextId && p.role != DiffRole && (p.running == Agent || p.running == TreeRenderer)
    ensures Recorded([], w)
  {
    assert forall i :: 0 <= i < |w.panes| ==> w.panes[i] in w.panes;
  }

  lemma TellsOfAnother(h: seq<Show>, s: Show, p: Pane)
    requires Tells(h, p) && s.pane != p.id
    ensures Tells(h + [s], p)
  {
    assert (h + [s])[..|h|] == h;
  }

  lemma RespawnTold(h: seq<Show>, s: Show, p: Pane)
    requires Tells(h, p) && p.role == DiffRole && s.pane == p.id
    ensures Tells(h + [s], p.(running := s.program, content := if s.markStuck then MarkFor(s.program) else p.content))
  {
    assert (h + [s])[..|h|] == h;
  }

  lemma {:induction false} UnshownUnmarked(h: seq<Show>, id: nat)
    requires !ShownIn(h, id)
    ensures LastMark(h, id) == Unmarked
  {
    if h != [] {
      UnshownUnmarked(h[..|h| - 1], id);
    }
  }

  lemma SplitTold(h: seq<Show>, s: Show)
    requires !ShownIn(h, s.pane)
    ensures Tells(h + [s], Pane(s.pane, if s.roleStuck then DiffRole else NoRole,
                                if s.markStuck then MarkFor(s.program) else Unmarked, s.program))
  {
    assert (h + [s])[..|h|] == h;
    UnshownUnmarked(h, s.pane);
  }

  lemma ToldAfter(h: seq<Show>, s: Show, panes: seq<Pane>, bound: nat)
    requires AllTold(h, panes, bound)
    requires forall p :: p in panes ==> p.id != s.pane
    ensures AllTold(h + [s], panes, bound)
  {
    forall p | p in panes
      ensures p.id < bound && Tells(h + [s], p)
    {
      TellsOfAnother(h, s, p);
    }
  }

  /** A respawn or a split keeps the record. */
  lemma ShowRecorded(h: seq<Show>, w: World, program: Program, a: Answers)
    requires Recorded(h, w)
    ensures var i := LowerIndex(w.panes);
            Recorded(h + ShowAt(w, i, program, a), ShowInLowerPane(w, i, program, MarkFor(program), a).0)
  {
    var i := LowerIndex(w.panes);
    if !a.shows {
      assert h + [] == h;
    } else if i < |w.panes| {
      RespawnRecorded(h, w, i, program, a);
    } else {
      SplitRecorded(h, w, program, a);
    }
  }

  lemma UnshownAfter(h: seq<Show>, s: Show, id: nat)
    requires !ShownIn(h, id) && s.pane != id
    ensures !ShownIn(h + [s], id)
  {
    assert (h + [s])[..|h|] == h;
  }

  lemma RespawnRecorded(h: seq<Show>, w: World, i: nat, program: Program, a: Answers)
    requires Recorded(h, w) && a.shows && i < |w.panes| && w.panes[i].role == DiffRole
    ensures Recorded(h + ShowAt(w, i, program, a), ShowInLowerPane(w, i, program, MarkFor(program), a).0)
  {
    var s := ShowAt(w, i, program, a)[0];
    var w1 := ShowInLowerPane(w, i, program, MarkFor(program), a).0;
    assert w.panes[i] in w.panes;
    forall p | p in w1.panes
      ensures p.id < w1.nextId && Tells(h + [s], p)
    {
      var k :| 0 <= k < |w1.panes| && w1.panes[k] == p;
      assert w.panes[k] in w.panes;
      if k == i {
        RespawnTold(h, s, w.panes[i]);
      } else {
        TellsOfAnother(h, s, p);
      }
    }
    assert AllTold(h + [s], w1.killed, w1.nextId) by {
      ToldAfter(h, s, w.killed, w.nextId);
    }
    forall id | id >= w1.nextId
      ensures !ShownIn(h + [s], id)
    {
      UnshownAfter(h, s, id);
    }
    assert Apart(w1.panes, w1.killed) by {
      SameIdsApart(w.panes, w1.panes, w.killed);
    }
  }

  lemma SameIdsApart(panes: seq<Pane>, other: seq<Pane>, killed: seq<Pane>)
    requires Apart(panes, killed) && |panes| == |other|
    requires forall k :: 0 <= k < |panes| ==> panes[k].id == other[k].id
    ensures Apart(other, killed)
  {
    forall p, q | p in other && q in killed
      ensures p.id != q.id
    {
      var k :| 0 <= k < |other| && other[k] == p;
      assert panes[k] in panes;
    }
  }

  lemma SplitRecorded(h: seq<Show>, w: World, program: Program, a: Answers)
    requires Recorded(h, w) && a.shows && LowerIndex(w.panes) == |w.panes|
    ensures Recorded(h + ShowAt(w, |w.panes|, program, a),
                     ShowInLowerPane(w, |w.panes|, program, MarkFor(program), a).0)
  {
    var s := ShowAt(w, |w.panes|, program, a)[0];
    var w1 := ShowInLowerPane(w, |w.panes|, program, MarkFor(program), a).0;
    SplitTold(h, s);
    ToldAfter(h, s, w.panes, w.nextId);
    ToldAfter(h, s, w.killed, w.nextId);
    assert forall k :: 0 <= k < |w.panes| ==> w.panes[k] in w.panes;
    forall id | id >= w1.nextId
      ensures !ShownIn(h + [s], id)
    {
      UnshownAfter(h, s, id);
    }
  }

  /** Losing panes keeps the record. */
  lemma FewerRecorded(h: seq<Show>, w: World, panes: seq<Pane>)
    requires Recorded(h, w) && DistinctIds(panes) && OneLower(panes)
    requires forall p :: p in panes ==> p in w.panes
    ensures Recorded(h, w.(panes := panes))
  {
  }

  lemma {:induction false} DropIdKeeps(panes: seq<Pane>, id: nat)
    requires DistinctIds(panes) && OneLower(panes)
    ensures var rest := DropId(panes, id);
            DistinctIds(rest) && OneLower(rest) && forall p :: p in rest <==> p in panes && p.id != id
  {
    if panes != [] {
      var tail := panes[1..];
      assert forall k :: 0 <= k < |tail| ==> tail[k] == panes[k + 1];
      DropIdKeeps(tail, id);
      var rest := DropId(tail, id);
      forall k | 0 <= k < |rest|
        ensures panes[0].id != rest[k].id && (panes[0].role != DiffRole || rest[k].role != DiffRole)
      {
        assert rest[k] in tail;
        var m :| 0 <= m < |tail| && tail[m] == rest[k];
        assert panes[m + 1] == rest[k];
      }
    }
  }

  /** A pane is left by `Without` exactly when it is not the one taken out. */
  lemma WithoutMembers(panes: seq<Pane>, i: nat)
    requires i < |panes| && DistinctIds(panes) && OneLower(panes)
    ensures var rest := Without(panes, i);
            DistinctIds(rest) && OneLower(rest)
            && (forall p :: p in rest ==> p in panes && p.id != panes[i].id)
            && forall p :: p in panes && p.id != panes[i].id ==> p in rest
  {
    var rest := Without(panes, i);
    assert forall k :: 0 <= k < |rest| ==> rest[k] == panes[if k < i then k else k + 1];
    forall p | p in panes && p.id != panes[i].id
      ensures p in rest
    {
      var k :| 0 <= k < |panes| && panes[k] == p;
      assert rest[if k < i then k else k - 1] == p;
    }
  }

  lemma KillRecorded(h: seq<Show>, w: World, i: nat)
    requires Recorded(h, w) && i < |w.panes| && w.panes[i].role == DiffRole && w.panes[i].content != ShowsEditor
    ensures Recorded(h, w.(panes := Without(w.panes, i), killed := w.killed + [w.panes[i]]))
  {
    WithoutMembers(w.panes, i);
    assert w.panes[i] in w.panes;
  }

  lemma StepRecorded(h: seq<Show>, w: World, e: Event)
    requires Recorded(h, w)
    ensures Recorded(h + ShowsOf(w, e), Step(w, e))
  {
    match e
    case Toggle(path, a) => ToggleRecorded(h, w, path, a);
    case View(fileExists, a) => ViewRecorded(h, w, fileExists, a);
    case Gone(id) => GoneRecorded(h, w, id);
  }

  lemma GoneRecorded(h: seq<Show>, w: World, id: nat)
    requires Recorded(h, w)
    ensures Recorded(h + ShowsOf(w, Gone(id)), Step(w, Gone(id)))
  {
    assert h + [] == h;
    DropIdKeeps(w.panes, id);
    FewerRecorded(h, w, DropId(w.panes, id));
  }

  /** The record speaks of the panes, the killed ones and the next id alone. */
  lemma SamePanesRecorded(h: seq<Show>, w: World, w1: World)
    requires Recorded(h, w)
    requires w1.panes == w.panes && w1.nextId == w.nextId && w1.killed == w.killed
    ensures Recorded(h, w1)
  {
  }

  lemma ViewRecorded(h: seq<Show>, w: World, fileExists: bool, a: Answers)
    requires Recorded(h, w)
    ensures Recorded(h + ShowsOf(w, View(fileExists, a)), ViewStep(w, fileExists, a))
  {
    if a.inTmux && fileExists && a.looksUp {
      ShowRecorded(h, w, Editor, a);
      SamePanesRecorded(h + ShowsOf(w, View(fileExists, a)), ShowInEditor(w, fileExists, a).0,
                        ViewStep(w, fileExists, a));
    } else {
      assert h + [] == h;
    }
  }

  lemma ToggleRecorded(h: seq<Show>, w: World, path: string, a: Answers)
    requires Recorded(h, w)
    ensures Recorded(h + ShowsOf(w, Toggle(path, a)), ToggleStep(w, path, a))
  {
    var w1 := w.(openDiffs := Toggled(w.openDiffs, path));
    var w2 := w1.(written := w1.openDiffs);
    if a.writes && a.inTmux && a.looksUp {
      SamePanesRecorded(h, w, w2);
      ReconcileRecorded(h, w2, w2.openDiffs != {}, a);
      SamePanesRecorded(h + ShowsOf(w, Toggle(path, a)), Reconcile(w2, w2.openDiffs != {}, a).0,
                        ToggleStep(w, path, a));
    } else {
      assert h + [] == h;
      SamePanesRecorded(h, w, ToggleStep(w, path, a));
    }
  }

  /** What a reconcile shows. */
  function ReconcileShows(w: World, anythingOpen: bool, a: Answers): seq<Show> {
    var i := LowerIndex(w.panes);
    if a.looksUp && anythingOpen && !(i < |w.panes| && w.panes[i].content != ShowsEditor)
    then ShowAt(w, i, DiffRenderer, a)
    else []
  }

  lemma ReconcileRecorded(h: seq<Show>, w: World, anythingOpen: bool, a: Answers)
    requires Recorded(h, w)
    ensures Recorded(h + ReconcileShows(w, anythingOpen, a), Reconcile(w, anythingOpen, a).0)
  {
    assert h + [] == h;
    var i := LowerIndex(w.panes);
    if a.looksUp {
      ShowRecorded(h, w, DiffRenderer, a);
      if i < |w.panes| && w.panes[i].content != ShowsEditor {
        KillRecorded(h, w, i);
      }
    }
  }

  /** Over any run, whichever marks stick, the record tells what every pane is. */
  lemma {:induction false} RunRecorded(before: seq<Show>, w: World, events: seq<Event>)
    requires Recorded(before, w)
    ensures Recorded(before + Shows(w, events), Run(w, events))
  {
    if events == [] {
      assert before + [] == before;
    } else {
      var n := |events| - 1;
      var h, s := Shows(w, events[..n]), Run(w, events[..n]);
      RunRecorded(before, w, events[..n]);
      StepRecorded(before + h, s, events[n]);
      assert before + (h + ShowsOf(s, events[n])) == before + h + ShowsOf(s, events[n]);
    }
  }

  // ---------- what lost marks cost ----------

  /** The calls of a teardown all end well. */
  predicate AllWell(a: Answers) {
    a.writes && a.inTmux && a.looksUp && a.kills
  }

  /** Leaving the tree, after any run: a pane outlives it exactly when a call failed,
      the editor took over, the pane's role mark was lost as it was split off, or the
      last mark that stuck in it is the editor's. So a diff renderer outlives a
      teardown that goes well when its role mark was lost, or when it followed an
      editor and its own mark was lost. */
  lemma OutlivesTreeIff(before: seq<Show>, w: World, events: seq<Event>, a: Answers, p: Pane)
    requires Recorded(before, w) && p in Run(w, events).panes
    ensures var h := before + Shows(w, events);
            var end := Run(w, events);
            p in TearDown(end, a).panes <==>
            !AllWell(a) || end.editorTookOver || !GotRole(h, p.id) || LastMark(h, p.id) == ShowsEditor
  {
    RunRecorded(before, w, events);
    var end := Run(w, events);
    var i := LowerIndex(end.panes);
    RoleFound(before + Shows(w, events), end, p);
    ReconcileKillsIff(end.(openDiffs := {}, written := {}), false, a);
    if i < |end.panes| {
      WithoutMembers(end.panes, i);
    }
  }

  /** The pane with the role mark is the one a lookup finds. */
  lemma RoleFound(h: seq<Show>, w: World, p: Pane)
    requires Recorded(h, w) && p in w.panes
    ensures var i := LowerIndex(w.panes);
            if GotRole(h, p.id) then i < |w.panes| && w.panes[i] == p && p.content == LastMark(h, p.id)
            else i < |w.panes| ==> w.panes[i].id != p.id
  {
    var i := LowerIndex(w.panes);
    if i < |w.panes| {
      assert w.panes[i] in w.panes;
    }
    var k :| 0 <= k < |w.panes| && w.panes[k] == p;
  }

  lemma {:induction false} StuckIsLast(h: seq<Show>, id: nat)
    requires ShownIn(h, id) && LastShow(h, id).markStuck
    ensures LastMark(h, id) == MarkFor(LastShow(h, id).program)
  {
    if h[|h| - 1].pane != id {
      StuckIsLast(h[..|h| - 1], id);
    }
  }

  lemma TearDownRecorded(h: seq<Show>, w: World, a: Answers)
    requires Recorded(h, w)
    ensures Recorded(h, TearDown(w, a))
  {
    assert h + [] == h;
    ReconcileRecorded(h, w.(openDiffs := {}, written := {}), false, a);
  }

  /** The record a run leaves is the one the next tree in the window starts from. */
  lemma TreeAfterTree(before: seq<Show>, w: World, events: seq<Event>, a: Answers)
    requires Recorded(before, w)
    ensures Recorded(before + Shows(w, events), TearDown(Run(w, events), a).(editorTookOver := false, openDiffs := {}))
  {
    var h, end := before + Shows(w, events), TearDown(Run(w, events), a);
    RunRecorded(before, w, events);
    TearDownRecorded(h, Run(w, events), a);
    SamePanesRecorded(h, end, end.(editorTookOver := false, openDiffs := {}));
  }

  /** Every pane killed in a run or by the teardown had its role mark, and the last
      mark that stuck in it was not the editor's. So an editor is killed only when
      every editor mark since the last diff mark that stuck there was lost. */
  lemma KilledWereUnmarked(before: seq<Show>, w: World, events: seq<Event>, a: Answers, p: Pane)
    requires Recorded(before, w) && p in TearDown(Run(w, events), a).killed
    ensures var h := before + Shows(w, events);
            && GotRole(h, p.id) && LastMark(h, p.id) != ShowsEditor
            && ShownIn(h, p.id) && p.running == LastShow(h, p.id).program
            && (p.running == Editor ==> !LastShow(h, p.id).markStuck)
  {
    var h, end := before + Shows(w, events), Run(w, events);
    RunRecorded(before, w, events);
    TearDownRecorded(h, end, a);
    assert Tells(h, p);
    if LastShow(h, p.id).markStuck {
      StuckIsLast(h, p.id);
    }
  }

  const WELL := Answers(true, true, true, true, true, true, true)

  /** The lower pane a lookup finds is `p`, and it is not marked as the editor. */
  predicate Exposed(w: World, p: Pane) {
    var i := LowerIndex(w.panes);
    i < |w.panes| && w.panes[i] == p && p.content != ShowsEditor
  }

  lemma ClosingKills(w: World, path: string, p: Pane)
    requires path in w.openDiffs && Exposed(w, p)
    ensures p in Step(w, Toggle(path, WELL)).killed
  {
  }

  lemma OpeningKeeps(w: World, path: string, p: Pane)
    requires path !in w.openDiffs && Exposed(w, p)
    ensures var w1 := Step(w, Toggle(path, WELL)); Exposed(w1, p) && path in w1.openDiffs
  {
  }

  lemma RunThen(w: World, events: seq<Event>, e: Event)
    ensures Run(w, events + [e]) == Step(Run(w, events), e)
  {
    assert (events + [e])[..|events|] == events;
  }

  /** Two presses of a diff key, or one where a diff is open, kill an exposed pane. */
  lemma TogglesKill(w: World, events: seq<Event>, p: Pane)
    requires Exposed(Run(w, events), p)
    ensures exists more :: p in Run(w, events + more).killed
  {
    var end := Run(w, events);
    if path: string :| path in end.openDiffs {
      RunThen(w, events, Toggle(path, WELL));
      ClosingKills(end, path, p);
    } else {
      var e := Toggle("", WELL);
      RunThen(w, events, e);
      RunThen(w, events + [e], e);
      OpeningKeeps(end, "", p);
      ClosingKills(Step(end, e), "", p);
      assert events + [e] + [e] == events + [e, e];
      assert p in Run(w, events + [e, e]).killed;
    }
  }

  /** A pane can still be killed as it stands exactly when its role mark stuck and
      the last mark that stuck in it is not the editor's, whatever it runs. */
  lemma CanBeKilledIff(before: seq<Show>, w: World, events: seq<Event>, p: Pane)
    requires Recorded(before, w) && p in Run(w, events).panes
    ensures var h := before + Shows(w, events);
            (exists more :: p in Run(w, events + more).killed) <==>
            GotRole(h, p.id) && LastMark(h, p.id) != ShowsEditor
  {
    var h, end := before + Shows(w, events), Run(w, events);
    RunRecorded(before, w, events);
    RoleFound(h, end, p);
    if more :| p in Run(w, events + more).killed {
      RunRecorded(before, w, events + more);
      assert Tells(h, p) && p.role == DiffRole && p.content != ShowsEditor;
    }
    if GotRole(h, p.id) && LastMark(h, p.id) != ShowsEditor {
      TogglesKill(w, events, p);
    }
  }

  /** When a publish is heard and the set is not empty, the diff is on show afterwards
      exactly when the pane the lookup finds was last shown the diff, or the last mark
      that stuck in it is the editor's and so it is respawned, or there is none and the
      one split off gets its role mark. */
  lemma PublishShowsTheDiffIff(h: seq<Show>, w: World, a: Answers)
    requires Recorded(h, w) && w.openDiffs != {} && Publish(w, a).1
    ensures var i := LowerIndex(w.panes);
            DiffOnShow(Publish(w, a).0) <==>
            if i < |w.panes| then
              var id := w.panes[i].id;
              ShownIn(h, id) && (LastShow(h, id).program == DiffRenderer || LastMark(h, id) == ShowsEditor)
            else a.marksRole
    ensures Publish(w, a).0.written == w.openDiffs
  {
    var i := LowerIndex(w.panes);
    var w1 := Publish(w, a).0;
    if i < |w.panes| {
      assert w.panes[i] in w.panes;
      assert Tells(h, w.panes[i]);
      assert LowerIndex(w1.panes) == i by {
        FirstStays(w.panes, w1.panes, i);
      }
      OnlyLower(w1, i);
    } else {
      SplitOffLower(w, w1);
    }
  }

  lemma FirstStays(panes: seq<Pane>, other: seq<Pane>, i: nat)
    requires |panes| == |other| && i < |panes| && LowerIndex(panes) == i
    requires forall k :: 0 <= k < |panes| ==> other[k].role == panes[k].role
    ensures LowerIndex(other) == i
  {
  }

  lemma OnlyLower(w: World, i: nat)
    requires OneLower(w.panes) && i < |w.panes| && w.panes[i].role == DiffRole
    ensures DiffOnShow(w) <==> w.panes[i].running == DiffRenderer
  {
    if k :| 0 <= k < |w.panes| && w.panes[k].role == DiffRole && w.panes[k].running == DiffRenderer {
      assert k == i || k < i || i < k;
    }
  }

  lemma SplitOffLower(w: World, w1: World)
    requires LowerIndex(w.panes) == |w.panes| && |w1.panes| == |w.panes| + 1
    requires w1.panes[..|w.panes|] == w.panes && w1.panes[|w.panes|].running == DiffRenderer
    ensures DiffOnShow(w1) <==> w1.panes[|w.panes|].role == DiffRole
  {
    assert forall k :: 0 <= k < |w.panes| ==> w1.panes[k] == w.panes[k];
  }

  /** The diff can be missed: a diff, an editor whose content mark is lost, and the diff
      again. Every call of the last key works, and the editor is still what is shown. */
  lemma LostMarkHidesTheDiff(w: World, path: string)
    requires w.panes == [] && w.openDiffs == {}
    ensures var toggle, view := Toggle(path, WELL), View(true, WELL.(marksContent := false));
            var end := Run(w, [toggle, view, toggle]);
            end.openDiffs == end.written == {path} && !DiffOnShow(end)
  {
    var toggle, view := Toggle(path, WELL), View(true, WELL.(marksContent := false));
    RunThen(w, [], toggle);
    RunThen(w, [toggle], view);
    RunThen(w, [toggle, view], toggle);
    assert [] + [toggle] == [toggle] && [toggle] + [view] == [toggle, view];
    assert [toggle, view] + [toggle] == [toggle, view, toggle];
    var diff := Pane(w.nextId, DiffRole, ShowsDiff, DiffRenderer);
    assert Run(w, [toggle]).panes == [diff];
    assert Run(w, [toggle, view]).panes == [diff.(running := Editor)];
  }
}
