# Verified models of Dispatch

Dispatch runs coding agents in git worktrees and shows their work beside them.
This project models the parts of it that carry state or strong promises, and
proves those promises over every input, every run and every way a subprocess can
end. `dafny verify dfyconfig.toml` checks it all.

- **The changed-file tree** (`Paths`, `ChangedTree`, `ReportedPaths`, `TreeRows`,
  `TreePasses`, `TreeTheorems`, `TreeKeys`): git's answer merged, inserted, folded,
  sorted, expanded and counted, as functions on values with the theorems about the
  whole pipeline, and what the order of git's queries can change (`AnswerOrder`).
  `TreeObjects` is the same pipeline on nodes changed in place,
  each method proved to move the value its node stands for as the function does.
- **The collapse memory** (`Expansion`): which rows a rebuild opens and which manual
  collapses it forgets, across chains folding and unfolding.
- **The editor file** (`Trimming`, `EditorSections`, `EditorValues`, `EditorTask`,
  `EditorMerge`): printer, escape rule, parser and the merge back onto a task.
- **Launching** (`ShellLexer`, `ShellScript`, `LaunchCommand`, `AgentScope`): quoting
  and launch lines against a model of the part of the POSIX shell language they use, from the
  line typed into a pane to the process it starts.
- **Finishing a task** (`Porcelain`, `GitWorld`, `FinishTask`): two checkouts over one
  commit graph, git calls that end well, badly or killed, and a deadline.
- **The lower pane** (`LowerPane`, `LowerPaneObjects`, `LowerPaneMarks`): the step system
  of diff pane, editor and teardown, as rules on values and as methods on the loop's
  state, and what lost marks cost.
- **Request observers** (`RequestObservers`): exactly-once hand-out over any history.
- **Fork point** (`ForkPoint`), **diff document** (`DiffDocument`), **section reads**
  (`PaneReads`), **ranking** (`Ranking`), **keeping awake** (`KeepAwake`),
  **templates** (`Templates`) and the **epic walk** (`EpicWalk`).

What surrounds these (git, tmux, the shell, clocks, the store) appears as answers a
caller supplies or as a legality relation that says what a call may do.

Some promises written beside the code hold only under a condition. Each has a lemma
with an input that breaks it and a lemma with the exact condition.

- A tree shows every changed path only for prefix-free answers: `insert_path` finds a
  child by name alone, so a path below a changed file is inserted into the file's node
  and never shown (`CoveredPathHasNoRow`, `EveryPathShownIffPrefixFree`).
- The fork point keeps the base branch's own commits out of the list only when every
  merge base of HEAD and a base ref is behind it (`NoBaseCommitListedIff`). It is not
  when the two refs have diverged (`DivergedBaseIsListed`), when the call on a ref that
  exists fails and the other ref is taken (`FailedCallListsTheBase`), or when HEAD and
  the base have merged each other's commits (`CrissCrossListsTheBase`). With the last two
  aside, the condition is that the fork points are in line (`AnsweredRefsIff`).
- An edited value comes back as it was written only without a carriage return before a
  newline, because reading splits lines twice (`CarriageReturnIsLost`,
  `ReadsBackCanonicalIff`).
- The resume line runs the binary only when its path is no reserved word or assignment,
  because `shell_quote` leaves those as they are (`TakenPaths`,
  `ResumeLineRunsTheBinaryIff`).
- A publish that succeeds shows the diff unless a lost mark hides the editor from it or
  the new pane from the lookup (`LostMarkHidesTheDiff`, `PublishShowsTheDiffIff`).

The comment on `build_tree` says that the order of git's two queries cannot change a
badge. It cannot, whatever the answer (`BadgesIgnoreOrder`); the counts beside the
badge have their own exact condition (`OrderMatters`, `RowsIgnoreOrderIff`).

## Model

| member | source | states |
|---|---|---|
| Paths.RelativeComponentsArePlain | src/agent_tree/model.rs:364-378 | the guard refuses a path if and only if it is rooted, starts with a `.` component, has a `..` component or names nothing; what it accepts has plain components only |
| Paths.PlainPathReadsBack | src/agent_tree/model.rs:364-378 | every path of plain components, written with separators, is accepted and reads back as itself |
| Paths.SkippedSegmentsUnseen | src/agent_tree/model.rs:364-378 | past the first component, a doubled separator or a `.` changes nothing in what a path reads as |
| Paths.AscendingSubset | src/agent_tree/model.rs:486-501 | two lists of paths in the one row order, one holding the paths of the other, are one a subsequence of the other |
| ReportedPaths.CollectSorted | src/agent_tree/model.rs:290-306 | the merged answer is in path order, one entry per path |
| ReportedPaths.CollectMeaning | src/agent_tree/model.rs:290-306 | the merged answer holds exactly the accepted paths reported, each with the badge no report of it outranks and the counts of the first report that has some |
| TreeRows.InsertAddsRow | src/agent_tree/model.rs:380-418 | inserting a path adds exactly its own file row, or nothing when a file row sits on a proper prefix of it; every other row stays |
| TreeRows.InsertKeepsSound | src/agent_tree/model.rs:380-418 | inserting into vacant ground keeps siblings apart in their first component and every directory non-empty |
| TreeRows.BlockedMeaning | src/agent_tree/model.rs:403-418 | an insertion is swallowed by a file node exactly when some file row sits on a proper prefix of the path |
| TreePasses.InsertAllRows | src/agent_tree/model.rs:308-322 | inserting the whole merged answer gives one file row per entry that no other entry covers, and no other row |
| TreePasses.MergeFolds | src/agent_tree/model.rs:437-454 | one absorbing step per level, children first, leaves no directory with a directory as its only child |
| TreePasses.MergeKeepsLeaves | src/agent_tree/model.rs:437-454 | folding chains keeps every file row with its path, badge and counts, in place |
| TreePasses.SortOrders | src/agent_tree/model.rs:503-526 | sorting leaves every sibling list in strict order and keeps the tree sound |
| TreePasses.SortKeepsLeaf | src/agent_tree/model.rs:503-526 | sorting keeps exactly the file rows there were |
| TreePasses.OrderedLeavesAscend | src/agent_tree/model.rs:486-526 | in a sound sorted tree the depth-first file rows ascend in one fixed path order: at the first differing component files before directories, then byte order |
| TreePasses.ExpandKeeps | src/agent_tree/model.rs:528-540 | the expansion pass keeps file rows, totals, soundness and folding |
| TreePasses.CountKeeps | src/agent_tree/model.rs:469-484 | the counting pass keeps file rows, totals, soundness and folding |
| TreeTheorems.FileRows | src/agent_tree/model.rs:286-334 | the file rows of the built tree are exactly the reported paths no other reported path covers, with best badge and first counts, in ascending row order; the tree is sound and folded |
| TreeTheorems.ShownBadge | src/agent_tree/model.rs:336-348 | a file row is badged added if and only if some report of its path says added, deleted if and only if none does and some says deleted, and modified otherwise |
| TreeTheorems.EveryPathShownIffPrefixFree | src/agent_tree/model.rs:286-334 | every reported path has a row if and only if no reported path is a proper prefix of another |
| TreeTheorems.CoveredPathHasNoRow | src/agent_tree/model.rs:400-418 | the concrete answer (`a` and `a/b` both changed) for which a reported path gets no row |
| TreeTheorems.FewerChangesKeepRowOrder | src/agent_tree/model.rs:486-526 | for any two answers, one reporting fewer paths, its rows are a subsequence of the other's if and only if no uncovered path of the smaller is covered in the larger; so always when the larger is prefix-free, wherever chains fold |
| TreeTheorems.SamePathsSameRows | src/agent_tree/model.rs:486-526 | the rows and their order are a function of which paths are shown, whatever the answer, its order and its counts |
| AnswerOrder.BadgesIgnoreOrder | src/agent_tree/model.rs:286-306 | permuting the answer changes no row, no badge and no place, whatever counts the reports carry |
| AnswerOrder.OrderDoesNotMatter | src/agent_tree/model.rs:286-334 | nor any count or anything else in the tree, when the reports of one path carry no two different counts |
| AnswerOrder.RowsIgnoreOrderIff | src/agent_tree/model.rs:286-334 | for every answer: all its permutations show the same rows, counts included, if and only if the reports of each path with a row of its own carry no two different counts |
| AnswerOrder.OrderMatters | src/agent_tree/model.rs:290-306 | for every answer and path where they do, the permutation that shows other rows |
| TreeKeys.NodeAtFindsRow | src/agent_tree/model.rs:114-123 | `node_at` on any row's chain of names returns that row |
| TreeKeys.NodeAtFindsEveryFile | src/agent_tree/model.rs:114-123 | on the built tree every shown file is found by a chain of names that spells its path, with its badge and counts |
| TreeKeys.NoSingleChildChains | src/agent_tree/model.rs:437-454 | no directory row of the built tree is empty or has a directory as its only child |
| TreeKeys.DirectoryRowsExpanded | src/agent_tree/model.rs:528-540 | every directory row of the built tree is drawn open |
| TreeKeys.DirectoryRowsHaveNoBadge | src/agent_tree/model.rs:400-418 | no directory row has a badge of its own |
| TreeKeys.TotalIsCappedSum | src/agent_tree/model.rs:51-64 | the chain of saturating additions gives the exact sum capped at 2^32-1 per side, none exactly when no leaf has counts |
| TreeKeys.RowLeaves | src/agent_tree/model.rs:437-526 | the files below a row are exactly the tree's files below the row's path |
| TreeKeys.DirectoryCounts | src/agent_tree/model.rs:469-484 | every directory row, and the root, counts the capped sum over the shown files below its path that have counts, independent of folding and sibling order |
| TreeObjects.TreeNode.Position | src/agent_tree/model.rs:400-406 | the child search finds the first child of that name |
| TreeObjects.TreeNode.InsertPath | src/agent_tree/model.rs:380-418 | changing nodes in place, `insert_path` moves the tree exactly as the value-level insertion, and leaves it a tree of separate nodes |
| TreeObjects.TreeNode.MergeSingleChildChains | src/agent_tree/model.rs:437-454 | the in-place pass gives the folded tree |
| TreeObjects.TreeNode.SortChildren | src/agent_tree/model.rs:503-526 | the in-place stable sort, children before siblings, gives the sorted tree |
| TreeObjects.TreeNode.ComputeExpansion | src/agent_tree/model.rs:528-540 | the in-place pass marks the directories that hold a change and answers whether there is one |
| TreeObjects.TreeNode.ComputeCounts | src/agent_tree/model.rs:469-484 | the in-place pass sets every directory's counts and returns what the node contributes to its parent |
| TreeObjects.TreeNode.Resolve | src/agent_tree/model.rs:114-123 | the walk by names returns the node the key names, or nothing |
| TreeObjects.CollectBadges | src/agent_tree/model.rs:290-306 | the loop over git's answer builds the merged answer |
| TreeObjects.BuildTreeObject | src/agent_tree/model.rs:286-334 | the whole in-place pipeline returns a fresh tree standing for the value the theorems above are about |
| Expansion.RepresentedMember | src/agent_tree/state.rs:376-389 | a row stands for exactly the paths longer than its parent row's and up to its own |
| Expansion.RowsStandForShownDirectories | src/agent_tree/state.rs:376-389 | all rows together stand for exactly the proper non-empty prefixes of shown paths: chain folding cannot be read off the union |
| Expansion.RowsStandForEveryDirectoryIffPrefixFree | src/agent_tree/state.rs:376-389 | that is every directory of the answer if and only if the answer is prefix-free |
| Expansion.RebuildOpens | src/agent_tree/state.rs:434-460 | a rebuild adds exactly the keys of directory rows that stand for no collapsed path |
| Expansion.RebuildKeeps | src/agent_tree/state.rs:346-360 | a rebuild keeps exactly the collapses of directories that still hold a shown change |
| Expansion.RenderState.SyncExpansionAt | src/agent_tree/state.rs:434-460 | the recursive walk opens those rows and gathers what every row stands for |
| Expansion.RenderState.SyncExpansion | src/agent_tree/state.rs:346-360 | the whole step: what is opened and which collapses are forgotten |
| Expansion.RenderState.AdoptTree | src/agent_tree/run.rs:239-245 | an unchanged tree re-syncs nothing, a changed one syncs once |
| Expansion.RenderState.AbsorbManualExpansion | src/agent_tree/state.rs:398-428 | after a press a path is collapsed if and only if it was or a row of exactly that path closed, and no row that opened stands for it (longer than its parent row's path, up to its own) |
| Expansion.CollapseMemory | src/agent_tree/state.rs:346-428 | over any run of key presses and rebuilds, a directory is remembered as collapsed if and only if a press closed it and since then none opened a row standing for it and every rebuild still held a shown change below it |
| EditorSections.EscapedLineReadsBack | src/editor.rs:143-180 | an escaped line never opens a section and unescapes to the line it was |
| EditorSections.ParseSectionsIn | src/editor.rs:187-221 | the parser's loop over lines, buffer and map computes the sections |
| EditorSections.ReadSectionValue | src/editor.rs:225-231 | the loop dropping leading blank lines computes the section value |
| EditorSections.WrittenSectionsReadBack | src/editor.rs:159-221 | written sections with distinct known names read back one by one, whatever header-looking or backslashed lines their values hold |
| EditorValues.ReadBackFrames | src/editor.rs:187-231 | what a value becomes: its lines, each without up to two final carriage returns, without leading blank lines and trailing white space |
| EditorValues.ReadsBackCanonicalIff | src/editor.rs:187-231 | a value comes back in its canonical form if and only if that form has no carriage return before a newline |
| EditorValues.CarriageReturnIsLost | src/editor.rs:187-231 | the concrete value (`a`, carriage return, newline, `b`) that does not come back in its canonical form |
| EditorValues.TrimsBackIff | src/editor.rs:235-237 | the same for a single-line field, which is trimmed when read |
| EditorValues.EmptyBackIff | src/editor.rs:225-231 | only a blank value reads back as nothing |
| EditorTask.WrittenTaskReadsBack | src/editor.rs:338-365 | each of the twelve sections of a written task reads back as its own value alone decides |
| EditorTask.FormatThenParse | src/editor.rs:532-602 | writing a task and parsing the file returns every enum field and flag unchanged, no errors, and each free text as its own lines allow |
| EditorTask.PlainTaskReadsBack | src/editor.rs:532-602 | for every task without carriage returns the round trip is the identity up to trimming |
| EditorTask.DescriptionReadsBackIff | src/editor.rs:244-252 | the description editor returns the canonical description if and only if that has no carriage return before a newline |
| EditorTask.UneditedSaveChangesNothingIff | src/editor.rs:446-498 | saving the file unedited changes no field and sends no url update if and only if every free text is blank or already in the form the file keeps, and a set plan or url is not blank |
| EditorMerge.EditedSave | src/editor.rs:446-498 | for any two tasks, the file written for one (its texts in the kept form) saved onto the other gives it every field of the first, a blank text keeping what was there; the url is left alone if and only if the two are equal, set to the new one if and only if it is there and differs, cleared if and only if it is gone |
| EditorMerge.MergedTexts | src/editor.rs:446-498 | whatever the sections hold, an empty text keeps title, description and path, leaves the base branch alone and clears the plan |
| EditorMerge.MergedWords | src/editor.rs:446-498 | a word sets status, tag, wrap-up mode or model to a value if and only if it is the value's word (`ready` too for the backlog); any other keeps the status and clears the rest; phoenix is on if and only if the word is a yes in any case |
| EditorMerge.ErrorsIff | src/editor.rs:532-585 | the errors are exactly the sections whose word is there and names nothing |
| EditorMerge.EditedUrl | src/editor.rs:415-432 | an edited url is its trimmed text with the type named, else the type an unchanged url had, else the one read off the path before any query or fragment; what is written follows from comparing it with the old one |
| ShellLexer.TokensAppend | src/dispatch/agents.rs:425-440 | two complete pieces of command line with a blank between them lex to the tokens of both (Shell Command Language, IEEE Std 1003.1, section 2.3) |
| ShellLexer.ArgvAppend | src/dispatch/agents.rs:425-440 | and expand, tildes, parameters and commands included, to the arguments of both |
| LaunchCommand.ShellQuoteIsOneWord | src/process.rs:115-123 | `shell_quote(s)` lexes to one word whose value is exactly `s`, for every `s` (sections 2.2.1 to 2.2.3) |
| LaunchCommand.LeftAloneIff | src/process.rs:115-123 | a value is left without quotes if and only if it is not empty and holds only letters, digits and the ten plain characters |
| LaunchCommand.NamesCommandIff | src/process.rs:115-123 | a value through `shell_quote`, where a command may start, names a command if and only if it was not left without quotes as a reserved word or an assignment |
| LaunchCommand.LaunchLinePassesRawValues | src/dispatch/agents.rs:425-440 | the launch line runs `bash -c` with the script as one argument and the raw binary and config paths as `$0` and `$1`, whatever they hold, for any flags without a single quote |
| LaunchCommand.BaseFlagArguments | src/dispatch/prompts.rs:36-45 | the fixed flags a launch passes reach the binary with each leading `~` replaced by `HOME`, and otherwise as written |
| LaunchCommand.ScriptCommandArguments | src/dispatch/agents.rs:419-440 | inside the script the command is the raw `$0` with the expanded flags, the raw `$1` after its option, and the prompt behind `--`, one argument each, for any flags the model can expand |
| LaunchCommand.ScriptRunsCommand | src/dispatch/agents.rs:434-440 | run as an AND list, the script puts the prompt file less its final newlines into `prompt`, removes the file, and only then starts that command; without the file it starts nothing |
| LaunchCommand.LaunchStartsTheAgent | src/dispatch/agents.rs:52-69 | for every binary path, config path and prompt file: from the launch line a shell reads to the one process started, its every argument, and the file gone by then |
| AgentScope.LineIsHandedOn | src/process/agent_scope.rs:58-69 | in an agent scope or not, whether the pane can start one or not, the line a shell reads in the end is the given line, whatever it holds |
| AgentScope.ScopedCommandRuns | src/process/agent_scope.rs:58-69 | in a scope, the words run: `systemd-run` with its options and the slice, and below it a `sh -c` with the line |
| AgentScope.TypedLineStartsTheAgent | src/dispatch/mod.rs:56-61 | so the line typed into the pane, wrapped or not, starts the agent as the launch line does |
| LaunchCommand.ResumeLineRunsTheBinaryIff | src/dispatch/agents.rs:889 | the resume line runs the raw binary path with the expanded flags, the raw config path and the continue flag if and only if the path is no word the shell takes for a reserved word or an assignment; else it runs nothing |
| LaunchCommand.TakenPaths | src/dispatch/agents.rs:889 | the concrete paths (`if` and `A=b`) a resume line does not run |
| Porcelain.StatusReadsBack | src/git.rs:360-366 | what git prints as status reads back entry by entry |
| Porcelain.DirtyFilesAreThePaths | src/git.rs:372-378 | the dirty files are the paths of all printed entries, in order |
| Porcelain.ConflictFilesAreUnmergedPaths | src/git.rs:386-392 | the conflict list is exactly the unmerged paths, in git's order |
| GitWorld.Git.Run | src/dispatch/request_host.rs:112-135 | a call through the deadline runner is refused at or past the deadline, and changes nothing; any other gets the world's answer and is cut off at the nearer of its timeout and the deadline |
| GitWorld.RefusalsStick | src/dispatch/request_host.rs:112-135 | once one call is refused for the deadline, every later one through that runner is, whatever runs in between, and a run that goes on through it alone ends in the state it had |
| FinishTask.CheckPrimaryWorktree | src/dispatch/finish.rs:120-144 | passes exactly on a clean repo root on the base branch, names the branch or the dirty files otherwise, changes nothing |
| FinishTask.PullBase | src/dispatch/finish.rs:150-193 | only moves the base branch forward; with a working abort side leaves no merge behind; the error says whether the abort failed too |
| FinishTask.AbortMergeIfInProgress | src/git.rs:141-158 | aborts only a merge in progress; afterwards one is left only if the probe was killed or the abort failed |
| FinishTask.AbortTheRebase | src/git.rs:131-135 | one best-effort call; when it works no rebase is left |
| FinishTask.AbortAfterConflict | src/git.rs:168-179 | reads the conflicted paths, then aborts, with nothing moving in between |
| FinishTask.RebaseBranch | src/dispatch/finish.rs:199-229 | success puts the worktree's branch on the base; a conflict names exactly the paths unmerged before the abort; with a working abort side no rebase is left |
| FinishTask.FastForwardBase | src/dispatch/finish.rs:232-249 | success moves the base along its history to the task branch, or finds it there or ahead already |
| FinishTask.SucceedsIff | src/dispatch/finish.rs:95-118 | a finish succeeds if and only if its calls are exactly current branch, status, remote probe, pull when there is a remote, rebase and fast-forward, in that order, and each goes well: on the base branch, nothing dirty, the probe answered, the rest done |
| FinishTask.ErrorNamesTheStepIff | src/dispatch/finish.rs:120-249 | a failure names a step if and only if that step's call was made and not done (a remote probe: killed; a rebase: killed, or failed without git's words for a conflict), and is a conflict if and only if a rebase failed with those words |
| FinishTask.ChecksMean | src/dispatch/finish.rs:120-144 | the two checks go well if and only if they are answered and the repo root is on the base branch, and its status has no entry |
| FinishTask.FinishTaskWithAbortRunner | src/dispatch/finish.rs:95-249 | over every sequence of call outcomes: success means the base is at the rebased task branch with the old base its ancestor; with a working abort side no merge or rebase is left; the result is decided by the logged calls as `SucceedsIff` and `ErrorNamesTheStepIff` say; steps go through the one runner and aborts through the other, each call under its bound; under a deadline it is over by the deadline plus two abort timeouts |
| LowerPane.PublishSucceedsIff | src/agent_tree/run.rs:79-111 | a publish succeeds if and only if the write, tmux and the lookup do and the one thing left to do, showing the diff or killing the pane, works |
| LowerPane.StepOpens | src/agent_tree/state.rs:218-226 | a toggle leaves no file open if the path was open and exactly that one if not; an editor that comes up empties the set; nothing else moves it |
| LowerPane.AtMostOneOpen | src/agent_tree/state.rs:218-226 | over any run at most one file is open |
| LowerPane.WrittenFollows | src/agent_tree/run.rs:79-111 | while its writes work, the open-set file holds the open set after every event, and is empty after the tree is gone |
| LowerPane.RunKeepsTidy | src/agent_tree/diff_pane.rs:86-116 | over any run of toggles, `v` opens, panes going away and a teardown, while marks stick: at most one pane has the diff role, its marks say what it runs, and only diff renderers in that role are killed |
| LowerPane.PublishShowsTheDiff | src/agent_tree/run.rs:79-111 | while marks are honest and stick, a successful publish of a non-empty set ends with a diff-role pane running the diff renderer |
| LowerPaneMarks.PublishShowsTheDiffIff | src/agent_tree/run.rs:79-111 | whichever marks stuck, a successful publish of a non-empty set ends with a diff-role pane running the diff renderer if and only if the pane found was last shown the diff, or its last stuck mark is the editor's, or there was none and the new one got its role mark |
| LowerPaneMarks.LostMarkHidesTheDiff | src/agent_tree/diff_pane.rs:86-116 | the concrete keys (a diff, an editor whose content mark is lost, the diff again) after which the diff is open and not shown |
| LowerPaneMarks.BareWindowRecorded | src/agent_tree/diff_pane.rs:53-67 | a window without a lower pane has nothing on record: where every run of the record starts |
| LowerPaneMarks.TreeAfterTree | src/agent_tree/diff_pane.rs:86-186 | the record of what was shown, and which marks stuck, tells after any run and teardown what every pane of the window runs and how it is marked, and the next tree starts from it |
| LowerPaneMarks.CanBeKilledIff | src/agent_tree/diff_pane.rs:86-116 | after any run, whichever marks stuck: some continuation kills a pane as it stands if and only if its role mark stuck as it was split off and the last content mark that stuck in it is not the editor's, whatever it runs |
| LowerPaneMarks.KilledWereUnmarked | src/agent_tree/diff_pane.rs:156-186 | every pane killed in any run or by the teardown was such a pane, so a killed editor is one whose own mark was lost |
| LowerPaneMarks.OutlivesTreeIff | src/agent_tree/run.rs:175-210 | after any run, a pane outlives the teardown if and only if a call of it failed, the editor took over, its role mark was lost, or the last content mark that stuck in it is the editor's |
| LowerPane.TookOverIff | src/agent_tree/run.rs:428-438 | the takeover flag is up if and only if some `v` put the editor up and no diff was toggled since, and then the open set is empty |
| LowerPane.EditorSurvivesTeardown | src/agent_tree/run.rs:175-189 | leaving while the editor is up and no diff was toggled since touches no pane, even when its content mark never stuck |
| LowerPaneObjects.TreePane.ExistingLowerPane | src/agent_tree/diff_pane.rs:53-67 | the lookup finds the first pane with the diff role and whether it shows the editor; a failed lookup is an error |
| LowerPaneObjects.TreePane.ShowInLowerPane | src/agent_tree/diff_pane.rs:156-186 | respawn or split, then best-effort marks: the whole state moves as the protocol's rule says |
| LowerPaneObjects.TreePane.ReconcileDiffPane | src/agent_tree/diff_pane.rs:86-116 | the whole state moves as the protocol's rule says |
| LowerPaneObjects.TreePane.PublishOpenSet | src/agent_tree/run.rs:79-111 | the set is written before the pane is reconciled, and the state moves as the rule says |
| LowerPaneObjects.TreePane.ToggleDiff | src/agent_tree/state.rs:218-226 | the key arm's whole step on the state; the open set ends empty or with exactly the path |
| LowerPaneObjects.TreePane.OpenInEditor | src/agent_tree/run.rs:118-162 | the `v` arm's whole step on the state |
| LowerPaneObjects.TreePane.TearDownDiffPane | src/agent_tree/run.rs:175-210 | the guard's whole step on the state |
| RequestObservers.SessionRequestObserver.Observe | src/dispatch/request_host.rs:248-272 | which rows are served and torn down, and the new memory, for rows in any order and with repeats |
| RequestObservers.DispatchRequestObserver.Observe | src/dispatch/request_host.rs:65-71 | serves as the session observer does |
| RequestObservers.TornDownIff | src/dispatch/request_host.rs:249-258 | after any history a row is torn down if and only if it is this host's failed teardown row with a window and was marked open since its last tear-down |
| RequestObservers.ServedIff | src/dispatch/request_host.rs:260-269 | after any history a row is served if and only if it is this host's requested row with work and was not handed out since its last release |
| RequestObservers.TakenInOrder | src/dispatch/request_host.rs:248-272 | what is handed out comes in the order of the delivery |
| RequestObservers.HandOutsBounded | src/dispatch/request_host.rs:43-78 | hand-outs of an id never exceed one more than its releases, over any history, repeats within one delivery included |
| Ranking.CosineSimilarity | src/embeddings.rs:174-182 | the value computed over the reals, always between -1 and 1 |
| Ranking.DotAppend | src/embeddings.rs:174-182 | each pair of components adds its product |
| Ranking.CosineMeaning | src/embeddings.rs:174-182 | the similarity times both lengths is the product, and it is 0 when a length is |
| Ranking.DotBounded | src/embeddings.rs:174-182 | the square of the truncating dot product never exceeds the product of the full squared norms |
| Ranking.CosineOfItself | src/embeddings.rs:174-182 | a vector is similar to itself with 1, or 0 when it is zero |
| Ranking.CoversIffComponentsLead | src/embeddings.rs:207-216 | a repository entry covers a path if and only if its components, trailing slashes aside, lead the path's |
| Ranking.RankLearnings | src/embeddings.rs:251-296 | the result is the first min(limit, m) of the m scored candidates in their stable descending order |
| Ranking.ScoreMeaning | src/embeddings.rs:189-281 | a candidate is scored if and only if it is similar enough and in reach (its epic, its repository or one that holds it, or anybody's); the score is the similarity by 1.3, 1.2, 1.1 or 1, plus 1/200 for each of up to ten upvotes and 1/20 for each tag asked for |
| Ranking.ScoreBounds | src/embeddings.rs:262-281 | with a threshold of at least 0 the boosts only raise a score, which stays between the similarity and 1.35 plus 0.05 per tag |
| Ranking.SortByScore | src/embeddings.rs:286-290 | the sort is by descending score and stable |
| Ranking.StableOrderUnique | src/embeddings.rs:286-296 | there is only one such order, so the ranking leaves nothing to choose |
| Ranking.KeptScoresNoLess | src/embeddings.rs:286-296 | nothing cut off by the limit scores more than anything kept |
| Ranking.ScoredMembers | src/embeddings.rs:257-284 | what is ranked is exactly what reached the threshold in scope, with its score |
| KeepAwake.Start | src/keep_awake.rs:135-196 | for every interleaving of writes, stream ends and polls, the events are those of what was written before the first end of each stream: no line of an open stream is lost |
| KeepAwake.ReportShape | src/keep_awake.rs:131-196 | the events are one refusal, or a grant and then one end; granted if and only if a line before the end of the stream trims to the ready word |
| KeepAwake.DescribeExit | src/keep_awake.rs:232-240 | the loop from the last error line backwards gives the reason |
| KeepAwake.DescriptionMeaning | src/keep_awake.rs:232-240 | the reason is the last error line with something on it, trimmed, and how the helper ended only when there is none |
| KeepAwake.LastSaidMeaning | src/keep_awake.rs:232-240 | the reason is the last line with something on it, if there is one |
| Templates.RenderTemplate | src/dispatch/prompts.rs:742-765 | ends, and gives the newline-trimmed template's pieces with known keys filled in |
| Templates.PiecesSpell | src/dispatch/prompts.rs:742-765 | cutting a template into text and tokens loses nothing |
| Templates.PiecesUnique | src/dispatch/prompts.rs:742-765 | and there is only one way to cut it |
| Templates.PiecesWellRead | src/dispatch/prompts.rs:745-751 | each token opens at the first `{{`, closes at the first `}}` from there, and nothing after the last one is a token |
| Templates.UnknownKeysLeaveTheText | src/dispatch/prompts.rs:757-760 | keys no pair names leave the text as it stands |
| Templates.PairOrderIrrelevant | src/dispatch/prompts.rs:738-741 | pairs with distinct keys can be given in any order |
| Templates.FirstPairWins | src/dispatch/prompts.rs:750-753 | a token gets the value of the first pair with its key |
| Templates.ValueStandsAsGiven | src/dispatch/prompts.rs:738-741 | a value stands in the output as given, never rescanned |
| EpicWalk.WalkToCveRoot | src/dispatch/prompts.rs:103-123 | ends on every map of rows, cycles and gaps included, and answers true if and only if an epic reached by parent links, before a missing one, has the CVE role |
| ForkPoint.ForkIsNearest | src/agent_tree/changes.rs:72-141 | there is no fork point if and only if neither ref resolves (with the local error) or both do, differ, and the ancestry probe gives no answer; any other is behind HEAD and a ref of the base branch, of two in line the one nearer HEAD, whose list is exactly what both would list, of two diverged the local one, else the only one |
| ForkPoint.NoBaseCommitListedIff | src/agent_tree/changes.rs:98-141 | no commit of the base branch, local or origin, is in fork..HEAD if and only if every merge base of HEAD and either ref is behind the fork point, whichever refs git answered for |
| ForkPoint.AnsweredRefsIff | src/agent_tree/changes.rs:124-141 | so, when git answers for every ref there is and no history is criss-crossed, if and only if the fork points are in line |
| ForkPoint.FailedCallListsTheBase | src/agent_tree/changes.rs:136-137 | the concrete history, for every base name, in which the call on an existing origin ref fails and a commit of it is listed, with one fork point and nothing criss-crossed |
| ForkPoint.CrissCrossListsTheBase | src/agent_tree/changes.rs:45-57 | the concrete criss-cross history in which git answers and a commit of the base branch is listed |
| ForkPoint.DivergedBaseIsListed | src/agent_tree/changes.rs:124-135 | the concrete history, for every base name, in which a commit of the base branch is listed |
| ForkPoint.BranchCommits | src/agent_tree/changes.rs:238-264 | asks the log for at most fifty commits after the fork point and returns them parsed, or fails as the fork point or the log fails |
| ForkPoint.EntriesAreTheAgents | src/agent_tree/changes.rs:233-264 | when git tells the truth, the entries are at most fifty commits of HEAD after the fork point, each once, all of them when there are fewer; none is a commit of the base branch, local or origin, when every merge base is behind the fork point, and with fewer than fifty only then |
| ForkPoint.ParseMeaning | src/agent_tree/changes.rs:254-262 | a listed line is cut at its first space, and is all id without one |
| ForkPoint.BlankLinesSkipped | src/agent_tree/changes.rs:254-262 | there is one entry per line that is not blank, in order |
| ForkPoint.LogReadsBack | src/agent_tree/changes.rs:247-262 | every commit git prints is read back in order; a subject only loses a final carriage return |
| DiffDocument.BuildDocument | src/agent_tree/diff_viewer.rs:329-343 | the loop over the open paths gives the document, or the first failure |
| DiffDocument.DiffPane.Rebuild | src/agent_tree/diff_viewer.rs:686-711 | fresh lines and a new record, nothing when list, source and fingerprint are as last seen, or an error that moves nothing |
| DiffDocument.DiffPane.Refresh | src/agent_tree/diff_viewer.rs:633-678 | one whole pass on the pane's state |
| DiffDocument.LinesAreAPassesDocument | src/agent_tree/diff_viewer.rs:633-711 | what is on show is always one earlier pass's whole document, the one the record names, or nothing |
| DiffDocument.ShownIsFresh | src/agent_tree/diff_viewer.rs:633-711 | when equal fingerprints mean equal documents, the lines after any successful pass of any run equal the document built from scratch |
| DiffDocument.FailuresKeepTheDocument | src/agent_tree/diff_viewer.rs:652-678 | over any stretch of passes and scrolls, no pass succeeds if and only if each fails against the record the last successful one left, and then lines and record stay and the notice is up |
| DiffDocument.OffsetResetsOnAnotherFile | src/agent_tree/diff_viewer.rs:649-660 | a pass resets the scroll if and only if it succeeds with a non-empty list other than the last one recorded, an emptied set counting as a list |
| DiffDocument.DocumentShowsTheDiffs | src/agent_tree/diff_viewer.rs:257-278 | the document is cut into one stretch per reported open file, in order: its path, then every line of its diff as it stands, or the one line that says why not |
| DiffDocument.KindMeaning | src/agent_tree/diff_viewer.rs:281-318 | the kind of a diff line by its first characters, file headers and hunks before additions and removals |
| DiffDocument.DocumentFailsIff | src/agent_tree/diff_viewer.rs:329-343 | there is no document if and only if git fails for some open file, or for the untracked ones of unstaged work |
| DiffDocument.DocumentHeadings | src/agent_tree/diff_viewer.rs:257-278 | one heading per open file git reports, in the tree's order, whatever the files hold |
| PaneReads.RenderState.AdoptAgentList | src/agent_tree/state.rs:245-283 | one read's whole step on rows, cursor, pending jump and notice, and the window to jump to |
| PaneReads.RenderState.AdoptResumeAnswer | src/agent_tree/state.rs:288-306 | an accepted resume is waited for while the cursor is on its row |
| PaneReads.RenderState.AdoptCommitList | src/agent_tree/state.rs:320-343 | the selection stays on its commit while listed, else falls back; a failed read moves nothing |
| PaneReads.WaitIsBounded | src/agent_tree/state.rs:256-268 | over any run the wait for a resumed agent is over by thirty working reads, and while it lasts the cursor is on its row |
| PaneReads.WaitedForIff | src/agent_tree/state.rs:245-306 | over any run a task is waited for if and only if its resume was accepted with the cursor on its row, and since then every read still listed it detached before the limit, every key left the cursor there, and no other resume was accepted |
| PaneReads.CursorFollows | src/agent_tree/state.rs:245-256 | a read keeps the cursor on its task while that is listed, else inside the list |
| PaneReads.NoticeAfter | src/agent_tree/state.rs:245-306 | what the notice says after each answer: a failed read, a wait given up, a refusal, or nothing new |
| PaneReads.JumpsFollowAcceptance | src/agent_tree/state.rs:245-306 | over any run a task is jumped to at most once per accepted resume |
| PaneReads.JumpsWhereTheCursorIs | src/agent_tree/state.rs:270-276 | a read jumps if and only if the task waited for is attached in it, to that window, with the cursor on its row |

## Left out

- Running git, tmux, gh and claude, process groups, pipes and files: modelled as answers and legality relations.
- Rendering, palettes, key tables, the tree widget beyond its set of open keys, the order of the open-set file.
- The porcelain diff parsers (`parse_name_status`, `parse_numstat`, `parse_untracked`) and `attach_line_counts`: the tree starts from the changes they report.
- The words of messages, notices and prompts: an error says which step failed and what it carries.
- Strings are sequences of Unicode scalar values; lossy decoding of git's bytes, and byte offsets into a path, are not modelled.
- Porcelain.StatusReadsBack: for two-letter codes and paths without line breaks or trailing white space, because git quotes every other path.
- Other processes moving refs or checkouts while a task is finished.
- The `git.rs` error text of a killed call: a call that timed out and one that could not be started are both a kill that may have done any part of its work.
- FinishTask.FinishTaskWithAbortRunner: the final state of the base branch is stated for a worktree that has the task branch checked out, which is what its context documents; `~` in its two configured paths is not expanded.
- The shell model has no patterns, braces, history, pipes, redirections, here-documents, arithmetic or splitting of unquoted expansions: such text lexes to nothing. Aliases, functions, command search, zsh's own syntax, other users' homes and a `HOME` that is unset, empty or ends in a slash are outside it; NUL bytes cannot occur in arguments.
- LaunchCommand.LaunchStartsTheAgent: agent names and model aliases are plain words, which the source splices in unquoted; `rm -f` succeeds, and `cat` reads one file.
- LaunchCommand.LaunchLinePassesRawValues: flags with a single quote are outside, because they are written inside a single-quoted script; the flags come from fixed text and session names.
- Expansion.RenderState.SyncExpansionAt: the tree it walks is read only, so it is passed as a value.
- TreeObjects.TreeNode.ComputeCounts: the iterator chain over the children is a recursion on the child index.
- A key of an earlier chain shape may stay in the widget's open set; what a rebuild adds and forgets is stated, not what the set holds altogether.
- LowerPane.RunKeepsTidy: stated for runs whose marks stick; what lost marks cost over a run is in `LowerPaneMarks`, and `TookOverIff` and `EditorSurvivesTeardown` hold whichever marks stick.
- Partly failed tmux calls: each call of an action works or does not, as its answers say.
- The epic editor: the same printer and parser with other field names and an interval parser.
- Ranking.CosineSimilarity: over the reals with an abstract square root; rounding, overflow and NaN of 32-bit floats are not modelled, and neither is the embedding thread.
- KeepAwake.Start: a last output line the helper left without its newline counts as written when the stream ends; the claim that what was written before the exit is ready at once is part of the step relation.
- EpicWalk.WalkToCveRoot: rows are stored under their own ids, and the store does not change during the walk; a failed read is a missing row.
- AgentScope.LineIsHandedOn: whether the pane's probe for a scope works is a parameter; the script is read as one `if` with a command in each place, and a slice name is a plain word.
- ForkPoint.EntriesAreTheAgents: which fifty are the newest is git's date order, which a commit does not carry here.
- PaneReads.WaitIsBounded: counts adopted reads; equal reads are dropped before they are adopted, so it bounds no time.
- Backoff, list motions, the bump regexes, the memory cap on the agents slice, the row pump and the store behind the requests.
