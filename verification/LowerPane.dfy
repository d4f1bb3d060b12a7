/** The lower pane of an agent window: what each tmux effect does to the panes,
    and the rules that open, replace and retire the pane, on values. The methods
    that carry them out are in `LowerPaneObjects`. */
module LowerPane {
  /** `@dispatch_pane_role`. */
  datatype Role = NoRole | TreeRole | DiffRole

  /** `@dispatch_pane_content`. */
  datatype Content = Unmarked | ShowsDiff | ShowsEditor

  datatype Program = Agent | TreeRenderer | DiffRenderer | Editor

  datatype Pane = Pane(id: nat, role: Role, content: Content, running: Program)

  /** The window, the tree's open set, and the panes killed by reconciling. */
  datatype World = World(
    panes: seq<Pane>,
    nextId: nat,
    openDiffs: set<string>,
    written: set<string>,
    editorTookOver: bool,
    killed: seq<Pane>
  )

  /** How the calls of one action end: the open-set file, `$TMUX_PANE`, the pane
      lookup, the split or respawn, the two marks, the kill. */
  datatype Answers = Answers(
    writes: bool,
    inTmux: bool,
    looksUp: bool,
    shows: bool,
    marksRole: bool,
    marksContent: bool,
    kills: bool
  )

  /** Index of the first pane with the diff role, or the number of panes. */
  function LowerIndex(panes: seq<Pane>): (i: nat)
    ensures i <= |panes|
    ensures i < |panes| ==> panes[i].role == DiffRole
    ensures forall j :: 0 <= j < i ==> panes[j].role != DiffRole
  {
    if panes == [] then 0 else if panes[0].role == DiffRole then 0 else 1 + LowerIndex(panes[1..])
  }

  function Without(panes: seq<Pane>, i: nat): seq<Pane>
    requires i < |panes|
  {
    panes[..i] + panes[i + 1..]
  }

  /** `show_in_lower_pane`: respawn the pane at `i`, or split a fresh one. The marks
      are best effort. */
  function ShowInLowerPane(w: World, i: nat, program: Program, content: Content, a: Answers): (World, bool)
    requires i <= |w.panes|
  {
    if !a.shows then (w, false)
    else if i < |w.panes| then
      var p := w.panes[i];
      var shown := p.(running := program, content := if a.marksContent then content else p.content);
      (w.(panes := w.panes[i := shown]), true)
    else
      var role := if a.marksRole then DiffRole else NoRole;
      var p := Pane(w.nextId, role, if a.marksContent then content else Unmarked, program);
      (w.(panes := w.panes + [p], nextId := w.nextId + 1), true)
  }

  /** `reconcile_diff_pane`. */
  function Reconcile(w: World, anythingOpen: bool, a: Answers): (World, bool) {
    if !a.looksUp then (w, false)
    else
      var i := LowerIndex(w.panes);
      var found := i < |w.panes|;
      var editor := found && w.panes[i].content == ShowsEditor;
      if anythingOpen then
        if found && !editor then (w, true) else ShowInLowerPane(w, i, DiffRenderer, ShowsDiff, a)
      else if found && !editor then
        if a.kills then (w.(panes := Without(w.panes, i), killed := w.killed + [w.panes[i]]), true) else (w, false)
      else (w, true)
  }

  /** `publish_open_set`. */
  function Publish(w: World, a: Answers): (World, bool) {
    if !a.writes then (w, false)
    else
      var w1 := w.(written := w.openDiffs);
      if !a.inTmux then (w1, false) else Reconcile(w1, w1.openDiffs != {}, a)
  }

  /** `toggle_diff`. */
  function Toggled(open: set<string>, path: string): set<string> {
    if path in open then {} else {path}
  }

  /** The `DiffSetChanged` arm: publish, and note that a diff is open again. */
  function ToggleStep(w: World, path: string, a: Answers): World {
    var w1 := Publish(w.(openDiffs := Toggled(w.openDiffs, path)), a).0;
    if w1.openDiffs != {} then w1.(editorTookOver := false) else w1
  }

  /** `show_in_editor`: a path with no working-tree file is refused. */
  function ShowInEditor(w: World, fileExists: bool, a: Answers): (World, bool) {
    if !a.inTmux || !fileExists || !a.looksUp then (w, false)
    else ShowInLowerPane(w, LowerIndex(w.panes), Editor, ShowsEditor, a)
  }

  /** `record_editor_took_over`: empty the set and write it, reconciling nothing. */
  function RecordEditorTookOver(w: World, a: Answers): World {
    if w.openDiffs == {} then w
    else w.(openDiffs := {}, written := if a.writes then {} else w.written)
  }

  /** The `OpenInEditor` arm. */
  function ViewStep(w: World, fileExists: bool, a: Answers): World {
    var (w1, shown) := ShowInEditor(w, fileExists, a);
    if shown then RecordEditorTookOver(w1, a).(editorTookOver := true) else w1
  }

  /** `tear_down_diff_pane`, on the way out. */
  function TearDown(w: World, a: Answers): World {
    if w.editorTookOver then w else Publish(w.(openDiffs := {}), a).0
  }

  /** What happens in the window: the tree's two keys, and a pane going away by the
      user's hand or because its program ended. */
  datatype Event =
    | Toggle(path: string, answers: Answers)
    | View(fileExists: bool, answers: Answers)
    | Gone(id: nat)

  function DropId(panes: seq<Pane>, id: nat): seq<Pane> {
    if panes == [] then []
    else if panes[0].id == id then DropId(panes[1..], id)
    else [panes[0]] + DropId(panes[1..], id)
  }

  function Step(w: World, e: Event): World {
    match e
    case Toggle(path, a) => ToggleStep(w, path, a)
    case View(fileExists, a) => ViewStep(w, fileExists, a)
    case Gone(id) => w.(panes := DropId(w.panes, id))
  }

  function Run(w: World, events: seq<Event>): World {
    if events == [] then w else Step(Run(w, events[..|events| - 1]), events[|events| - 1])
  }

  // ---------- when a publish succeeds ----------

  /** A publish succeeds, and raises no notice, exactly when the set is written, the
      tree runs in tmux and can look its panes up, and what is left to do works: showing
      the diff where none is marked, or killing the pane where one is and nothing is open. */
  lemma PublishSucceedsIff(w: World, a: Answers)
    ensures var i := LowerIndex(w.panes);
            var marked := i < |w.panes| && w.panes[i].content != ShowsEditor;
            Publish(w, a).1 <==>
            && a.writes && a.inTmux && a.looksUp
            && (w.openDiffs != {} && !marked ==> a.shows)
            && (w.openDiffs == {} && marked ==> a.kills)
  {
  }

  // ---------- at most one file open ----------

  /** A toggle closes an open file, and opens another in the place of all others; an
      editor that comes up empties the set, and nothing else moves it. */
  lemma StepOpens(w: World, e: Event)
    ensures Step(w, e).openDiffs ==
            match e
            case Toggle(path, _) => if path in w.openDiffs then {} else {path}
            case View(fileExists, a) =>
              if a.inTmux && fileExists && a.looksUp && a.shows then {} else w.openDiffs
            case Gone(_) => w.openDiffs
  {
    if e.Toggle? {
      var w1 := w.(openDiffs := Toggled(w.openDiffs, e.path));
      FlagIrrelevant(w1.(written := w1.openDiffs), w1.openDiffs != {}, e.answers);
    }
  }

  /** Over any run at most one file is open. */
  lemma {:induction false} AtMostOneOpen(w: World, events: seq<Event>)
    requires |w.openDiffs| <= 1
    ensures |Run(w, events).openDiffs| <= 1
  {
    if events != [] {
      AtMostOneOpen(w, events[..|events| - 1]);
      StepOpens(Run(w, events[..|events| - 1]), events[|events| - 1]);
    }
  }

  /** The write of the open set works. */
  predicate Writes(e: Event) {
    match e
    case Toggle(_, a) => a.writes
    case View(_, a) => a.writes
    case Gone(_) => true
  }

  lemma StepWrites(w: World, e: Event)
    requires w.written == w.openDiffs && Writes(e)
    ensures Step(w, e).written == Step(w, e).openDiffs
  {
    if e.Toggle? {
      var w1 := w.(openDiffs := Toggled(w.openDiffs, e.path));
      FlagIrrelevant(w1.(written := w1.openDiffs), w1.openDiffs != {}, e.answers);
    }
  }

  /** While its writes work, the file the diff pane reads holds the open set, and the
      empty set after the tree is gone. */
  lemma {:induction false} WrittenFollows(w: World, events: seq<Event>, a: Answers)
    requires w.written == w.openDiffs && (w.editorTookOver ==> w.openDiffs == {})
    requires forall e :: e in events ==> Writes(e)
    ensures Run(w, events).written == Run(w, events).openDiffs
    ensures a.writes ==> TearDown(Run(w, events), a).written == {}
  {
    if events != [] {
      var n := |events| - 1;
      assert events[n] in events && forall e :: e in events[..n] ==> e in events;
      WrittenFollows(w, events[..n], a);
      StepWrites(Run(w, events[..n]), events[n]);
    }
    FlagEmpties(w, events);
  }

  lemma {:induction false} FlagEmpties(w: World, events: seq<Event>)
    requires w.editorTookOver ==> w.openDiffs == {}
    ensures Run(w, events).editorTookOver ==> Run(w, events).openDiffs == {}
  {
    if events != [] {
      var s, e := Run(w, events[..|events| - 1]), events[|events| - 1];
      FlagEmpties(w, events[..|events| - 1]);
      if e.Toggle? {
        TogglePutsFlagDown(s, e.path, e.answers);
      }
    }
  }

  // ---------- one lower pane, marked as what it runs ----------

  /** The marks this event writes stick. */
  predicate MarksStick(e: Event) {
    match e
    case Toggle(_, a) => a.marksRole && a.marksContent
    case View(_, a) => a.marksRole && a.marksContent
    case Gone(_) => true
  }

  /** A pane's marks say what it runs. */
  predicate Honest(p: Pane) {
    && (p.role == DiffRole <==> p.running == DiffRenderer || p.running == Editor)
    && (p.role == DiffRole ==> (p.content == ShowsEditor <==> p.running == Editor))
  }

  ghost predicate Tidy(w: World) {
    && (forall i :: 0 <= i < |w.panes| ==> Honest(w.panes[i]))
    && (forall i, j :: 0 <= i < j < |w.panes| ==> !(w.panes[i].role == DiffRole && w.panes[j].role == DiffRole))
    && (w.editorTookOver ==> w.openDiffs == {})
  }

  /** Every pane killed so far had the diff role and ran the diff renderer. */
  ghost predicate OnlyDiffsKilled(w: World) {
    forall i :: 0 <= i < |w.killed| ==> w.killed[i].role == DiffRole && w.killed[i].running == DiffRenderer
  }

  /** A pane in the diff role runs the diff renderer. */
  predicate DiffOnShow(w: World) {
    exists i :: 0 <= i < |w.panes| && w.panes[i].role == DiffRole && w.panes[i].running == DiffRenderer
  }

  lemma ShowKeepsTidy(w: World, program: Program, content: Content, a: Answers)
    requires Tidy(w) && a.marksRole && a.marksContent
    requires (program == Editor && content == ShowsEditor) || (program == DiffRenderer && content == ShowsDiff)
    ensures var (w1, shown) := ShowInLowerPane(w, LowerIndex(w.panes), program, content, a);
            && Tidy(w1) && w1.killed == w.killed
            && (shown ==>
                  exists i :: 0 <= i < |w1.panes| && w1.panes[i].role == DiffRole && w1.panes[i].running == program)
  {
    var i := LowerIndex(w.panes);
    var (w1, shown) := ShowInLowerPane(w, i, program, content, a);
    if shown {
      assert w1.panes[i].role == DiffRole && w1.panes[i].running == program;
    }
  }

  /** A reconcile keeps one honest lower pane, kills nothing but a diff renderer,
      and with something open ends showing the diff. */
  lemma ReconcileKeepsTidy(w: World, anythingOpen: bool, a: Answers)
    requires Tidy(w) && a.marksRole && a.marksContent && OnlyDiffsKilled(w)
    ensures var (w1, ok) := Reconcile(w, anythingOpen, a);
            && Tidy(w1) && OnlyDiffsKilled(w1)
            && (ok && anythingOpen ==> DiffOnShow(w1))
            && w1.openDiffs == w.openDiffs && w1.editorTookOver == w.editorTookOver
  {
    ShowKeepsTidy(w, DiffRenderer, ShowsDiff, a);
    var i := LowerIndex(w.panes);
    if a.looksUp && i < |w.panes| && w.panes[i].content != ShowsEditor {
      assert Honest(w.panes[i]);
      if !anythingOpen && a.kills {
        WithoutKeeps(w, i);
      }
    }
  }

  lemma WithoutKeeps(w: World, i: nat)
    requires Tidy(w) && i < |w.panes|
    ensures Tidy(w.(panes := Without(w.panes, i), killed := w.killed + [w.panes[i]]))
  {
    var rest := Without(w.panes, i);
    forall k | 0 <= k < |rest|
      ensures rest[k] == if k < i then w.panes[k] else w.panes[k + 1]
    {
    }
  }

  lemma {:induction false} DropIdMembers(panes: seq<Pane>, id: nat, w: World, killed: seq<Pane>)
    requires Tidy(w.(panes := panes))
    ensures Tidy(w.(panes := DropId(panes, id)))
    ensures forall p :: p in DropId(panes, id) ==> p in panes
  {
    if panes != [] {
      assert Tidy(w.(panes := panes[1..])) by {
        assert forall k :: 0 <= k < |panes[1..]| ==> panes[1..][k] == panes[k + 1];
      }
      DropIdMembers(panes[1..], id, w, killed);
      var rest := DropId(panes[1..], id);
      forall k | 0 <= k < |rest|
        ensures !(panes[0].role == DiffRole && rest[k].role == DiffRole)
      {
        assert rest[k] in panes[1..];
        var m :| 0 <= m < |panes[1..]| && panes[1..][m] == rest[k];
        assert panes[m + 1] == rest[k];
      }
    }
  }

  lemma StepKeepsTidy(w: World, e: Event)
    requires Tidy(w) && OnlyDiffsKilled(w) && MarksStick(e)
    ensures Tidy(Step(w, e)) && OnlyDiffsKilled(Step(w, e))
  {
    match e
    case Toggle(path, a) =>
      var w1 := w.(openDiffs := Toggled(w.openDiffs, path), editorTookOver := false);
      var w2 := w1.(written := w1.openDiffs);
      ReconcileKeepsTidy(w2, w2.openDiffs != {}, a);
      var kept := w.(openDiffs := Toggled(w.openDiffs, path));
      FlagIrrelevant(kept.(written := kept.openDiffs), kept.openDiffs != {}, a);
    case View(fileExists, a) =>
      ShowKeepsTidy(w, Editor, ShowsEditor, a);
    case Gone(id) =>
      DropIdMembers(w.panes, id, w, w.killed);
  }

  /** Reconciling neither reads nor moves the takeover flag. */
  lemma FlagIrrelevant(w: World, anythingOpen: bool, a: Answers)
    ensures var (w1, ok1) := Reconcile(w, anythingOpen, a);
            var (w2, ok2) := Reconcile(w.(editorTookOver := false), anythingOpen, a);
            ok1 == ok2 && w2 == w1.(editorTookOver := false) && w1.editorTookOver == w.editorTookOver
            && w1.openDiffs == w.openDiffs
  {
  }

  /** Over any run in which the marks stick, and then a teardown: one honest lower
      pane at most, and nothing killed but diff renderers in the diff role. */
  lemma {:induction false} RunKeepsTidy(w: World, events: seq<Event>)
    requires Tidy(w) && OnlyDiffsKilled(w)
    requires forall i :: 0 <= i < |events| ==> MarksStick(events[i])
    ensures Tidy(Run(w, events)) && OnlyDiffsKilled(Run(w, events))
    ensures forall a: Answers :: a.marksRole && a.marksContent ==>
              Tidy(TearDown(Run(w, events), a)) && OnlyDiffsKilled(TearDown(Run(w, events), a))
  {
    if events != [] {
      RunKeepsTidy(w, events[..|events| - 1]);
      StepKeepsTidy(Run(w, events[..|events| - 1]), events[|events| - 1]);
    }
    var end := Run(w, events);
    forall a: Answers | a.marksRole && a.marksContent
      ensures Tidy(TearDown(end, a)) && OnlyDiffsKilled(TearDown(end, a))
    {
      var bare := end.(openDiffs := {}, written := {});
      ReconcileKeepsTidy(bare, false, a);
    }
  }

  /** With honest marks, a successful publish of a non-empty set ends with the diff on
      show. `LowerPaneMarks.PublishShowsTheDiffIff` says when it does with any marks. */
  lemma PublishShowsTheDiff(w: World, a: Answers)
    requires Tidy(w) && a.marksRole && a.marksContent
    requires Publish(w, a).1 && w.openDiffs != {}
    ensures Publish(w, a).0.written == w.openDiffs && DiffOnShow(Publish(w, a).0)
  {
    var w1 := w.(written := w.openDiffs);
    ShowKeepsTidy(w1, DiffRenderer, ShowsDiff, a);
    var i := LowerIndex(w.panes);
    if i < |w.panes| && w.panes[i].content != ShowsEditor {
      assert Honest(w.panes[i]);
    }
  }

  // ---------- when marks fail ----------

  /** Whatever sticks, a reconcile only ever kills the first pane in the diff role,
      and exactly when nothing is open and that pane is not marked as the editor.
      `LowerPaneMarks` follows the marks over runs. */
  lemma ReconcileKillsIff(w: World, anythingOpen: bool, a: Answers)
    ensures var w1 := Reconcile(w, anythingOpen, a).0;
            var i := LowerIndex(w.panes);
            if !anythingOpen && a.looksUp && a.kills && i < |w.panes| && w.panes[i].content != ShowsEditor
            then w1.killed == w.killed + [w.panes[i]] && w1.panes == Without(w.panes, i)
            else w1.killed == w.killed && |w1.panes| >= |w.panes|
                 && forall k :: 0 <= k < |w.panes| ==> w1.panes[k].id == w.panes[k].id
  {
  }

  predicate ViewSucceeds(w: World, e: Event) {
    e.View? && e.fileExists && e.answers.inTmux && e.answers.looksUp && e.answers.shows
  }

  /** Event `i` put the editor up, and no diff was toggled since. */
  ghost predicate EditorSince(w: World, events: seq<Event>, i: nat)
    requires i < |events|
  {
    ViewSucceeds(Run(w, events[..i]), events[i]) && forall j :: i < j < |events| ==> !events[j].Toggle?
  }

  lemma EditorSinceStep(w: World, events: seq<Event>, i: nat)
    requires i + 1 < |events|
    ensures var n := |events| - 1;
            EditorSince(w, events, i) <==> EditorSince(w, events[..n], i) && !events[n].Toggle?
  {
    var n := |events| - 1;
    assert events[..n][..i] == events[..i];
    assert forall j :: 0 <= j < n ==> events[..n][j] == events[j];
  }

  /** The takeover flag is up exactly when some `v` put the editor up and no diff
      was toggled since, whichever marks stuck. */
  lemma {:induction false} TookOverIff(w: World, events: seq<Event>)
    requires !w.editorTookOver
    ensures Run(w, events).editorTookOver <==> exists i :: 0 <= i < |events| && EditorSince(w, events, i)
    ensures Run(w, events).editorTookOver ==> Run(w, events).openDiffs == {}
  {
    if events != [] {
      var n := |events| - 1;
      var last, s := events[n], Run(w, events[..n]);
      TookOverIff(w, events[..n]);
      forall i | 0 <= i < n
        ensures EditorSince(w, events, i) <==> EditorSince(w, events[..n], i) && !last.Toggle?
      {
        EditorSinceStep(w, events, i);
      }
      assert EditorSince(w, events, n) <==> ViewSucceeds(s, last);
      match last
      case Toggle(path, a) => TogglePutsFlagDown(s, path, a);
      case View(fileExists, a) => ViewFlag(s, fileExists, a);
      case Gone(_) =>
    }
  }

  lemma TogglePutsFlagDown(w: World, path: string, a: Answers)
    requires w.editorTookOver ==> w.openDiffs == {}
    ensures !ToggleStep(w, path, a).editorTookOver
  {
    var w1 := w.(openDiffs := Toggled(w.openDiffs, path));
    FlagIrrelevant(w1.(written := w1.openDiffs), w1.openDiffs != {}, a);
  }

  lemma ViewFlag(w: World, fileExists: bool, a: Answers)
    ensures ViewStep(w, fileExists, a).editorTookOver == (w.editorTookOver || ShowInEditor(w, fileExists, a).1)
    ensures ShowInEditor(w, fileExists, a).1 ==> ViewStep(w, fileExists, a).openDiffs == {}
    ensures !ShowInEditor(w, fileExists, a).1 ==> ViewStep(w, fileExists, a) == w
  {
  }

  /** Leaving while the editor is up and no diff was opened since touches no pane,
      even when the editor's content mark never stuck. */
  lemma EditorSurvivesTeardown(w: World, events: seq<Event>, i: nat, a: Answers)
    requires !w.editorTookOver && i < |events| && EditorSince(w, events, i)
    ensures TearDown(Run(w, events), a) == Run(w, events)
  {
    TookOverIff(w, events);
  }
}
