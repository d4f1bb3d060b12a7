/** The lower pane's protocol as the tree pane's loop carries it out: tmux calls
    in order over the window's panes and the loop's own state, each method proved
    to move the whole state as the rule in `LowerPane` says. */
module LowerPaneObjects {
  import opened Prelude
  import opened LowerPane

  class TreePane {
    var panes: seq<Pane>
    var nextId: nat
    var openDiffs: set<string>
    var written: set<string>
    var editorTookOver: bool
    var killed: seq<Pane>
    /** How the calls of the action in hand end. */
    var answers: Answers

    function World(): World
      reads this
    {
      LowerPane.World(panes, nextId, openDiffs, written, editorTookOver, killed)
    }

    /** A window with the agent's pane and this tree's. */
    constructor (panes: seq<Pane>, nextId: nat, answers: Answers)
      ensures World() == LowerPane.World(panes, nextId, {}, {}, false, [])
      ensures this.answers == answers
    {
      this.panes, this.nextId, this.answers := panes, nextId, answers;
      openDiffs, written, editorTookOver, killed := {}, {}, false, [];
    }

    /** `existing_lower_pane`: a failed lookup is an error, not "no pane". */
    method ExistingLowerPane() returns (found: Result<Option<(nat, bool)>, ()>)
      ensures !answers.looksUp ==> found == Err(())
      ensures answers.looksUp ==>
                found == Ok(if LowerIndex(panes) < |panes|
                            then Some((LowerIndex(panes), panes[LowerIndex(panes)].content == ShowsEditor)) else None)
    {
      if !answers.looksUp {
        return Err(());
      }
      var i := 0;
      while i < |panes| && panes[i].role != DiffRole
        invariant i <= |panes|
        invariant forall j :: 0 <= j < i ==> panes[j].role != DiffRole
      {
        i := i + 1;
      }
      assert LowerIndex(panes) == i;
      return Ok(if i < |panes| then Some((i, panes[i].content == ShowsEditor)) else None);
    }

    /** `show_in_lower_pane`. */
    method ShowInLowerPane(existing: Option<nat>, program: Program, content: Content) returns (shown: bool)
      requires existing.Some? ==> existing.value < |panes|
      modifies this`panes, this`nextId
      ensures (World(), shown) ==
              LowerPane.ShowInLowerPane(old(World()), if existing.Some? then existing.value else |old(panes)|,
                                        program, content, answers)
    {
      if !answers.shows {
        return false;
      }
      var i: nat;
      match existing {
        case Some(at) =>
          i := at;
          panes := panes[i := panes[i].(running := program)];
        case None =>
          i := |panes|;
          panes := panes + [Pane(nextId, NoRole, Unmarked, program)];
          nextId := nextId + 1;
          if answers.marksRole {
            panes := panes[i := panes[i].(role := DiffRole)];
          }
      }
      if answers.marksContent {
        panes := panes[i := panes[i].(content := content)];
      }
      assert panes == LowerPane.ShowInLowerPane(old(World()), i, program, content, answers).0.panes;
      return true;
    }

    /** `reconcile_diff_pane`. */
    method ReconcileDiffPane(anythingOpen: bool) returns (ok: bool)
      modifies this`panes, this`nextId, this`killed
      ensures (World(), ok) == Reconcile(old(World()), anythingOpen, answers)
    {
      var found := ExistingLowerPane();
      if found.Err? {
        return false;
      }
      match found.value {
        case Some((i, false)) =>
          if anythingOpen {
            return true;
          }
          if !answers.kills {
            return false;
          }
          killed := killed + [panes[i]];
          panes := Without(panes, i);
          return true;
        case Some((i, true)) =>
          if !anythingOpen {
            return true;
          }
          ok := ShowInLowerPane(Some(i), DiffRenderer, ShowsDiff);
        case None =>
          if !anythingOpen {
            return true;
          }
          ok := ShowInLowerPane(None, DiffRenderer, ShowsDiff);
      }
    }

    /** `publish_open_set`. */
    method PublishOpenSet() returns (ok: bool)
      modifies this`panes, this`nextId, this`killed, this`written
      ensures (World(), ok) == Publish(old(World()), answers)
    {
      if !answers.writes {
        return false;
      }
      written := openDiffs;
      if !answers.inTmux {
        return false;
      }
      ok := ReconcileDiffPane(openDiffs != {});
    }

    /** `toggle_diff`, and the loop's answer to the moved set. */
    method ToggleDiff(path: string)
      modifies this
      ensures World() == Step(old(World()), Toggle(path, old(answers)))
      ensures openDiffs == if path in old(openDiffs) then {} else {path}
    {
      var wasOpen := path in openDiffs;
      openDiffs := {};
      if !wasOpen {
        openDiffs := openDiffs + {path};
      }
      var ok := PublishOpenSet();
      if openDiffs != {} {
        editorTookOver := false;
      }
    }

    /** `open_in_editor` and `record_editor_took_over`, for `v`. */
    method OpenInEditor(fileExists: bool)
      modifies this
      ensures World() == Step(old(World()), View(fileExists, old(answers)))
    {
      if !answers.inTmux || !fileExists {
        return;
      }
      var found := ExistingLowerPane();
      if found.Err? {
        return;
      }
      var shown := ShowInLowerPane(if found.value.Some? then Some(found.value.value.0) else None, Editor, ShowsEditor);
      if !shown {
        return;
      }
      if openDiffs != {} {
        openDiffs := {};
        if answers.writes {
          written := {};
        }
      }
      editorTookOver := true;
    }

    /** `tear_down_diff_pane`, which the loop's guard runs on every way out. */
    method TearDownDiffPane()
      modifies this
      ensures World() == TearDown(old(World()), old(answers))
    {
      if editorTookOver {
        return;
      }
      openDiffs := {};
      var ok := PublishOpenSet();
    }
  }
}
