# Verification of the kernel test framework's deciding parts

This project models the parts of the framework that decide something or keep durable
state, and proves what they promise. Git, Nix, ssh, systemd and the journal are replaced by
explicit state and by steps that may refuse or fail at any point.

`dafny verify dfyconfig.toml` checks the whole project.

## The modules

- **Developer trees** (`History`, `Worktree`, `TwoTree`, `WorktreeSafety`, `SyncContract`,
  `DeveloperTree`). Git is a
  finite acyclic commit graph with a snapshot per commit, a map of refs and a map of paths.
  A checkout has a HEAD, an index, files on disk and perhaps an operation in progress. A
  git command is a step that refuses for what it finds or for a reason of its own; a
  fast-forward treats each file as git-read-tree(1), section "Two Tree Merge", says. What a
  developer holds (`Thing`) is kept by every sync, with one exception that is characterised,
  and over whole runs every loss is traced to a developer's step or to that exception.
- **Mailed series** (`Series`). Publishing an applied series as a branch, the effective ref
  of an override, and the two resolvers that read it back.
- **Bisection** (`Bisect`, `BisectSteps`, `BisectSoundness`, `BisectNaming`). The persisted phase machine,
  the freshness-gated verdict and the marks given to git, whose suspects are the ancestors of
  the current bad commit that no good commit descends from. Every commit has a subject line,
  which git prints when it names the commit to try next.
- **Result readers** (`Loss`, `Ktap`, `KunitKtap`, `KunitReading`, `KunitNamesake`,
  `KunitRuns`, `SelftestsKtap`, `SelftestsReading`, `SelftestsRuns`). KTAP version 1 as lines already classified by the
  readers' regular expressions, with printers for both document forms, and what survives of
  texts that hold several runs when lines are lost.
- **Polling** (`Polling`, `JobOutcome`). The journal only grows, a cursor is a position in it,
  and a poll may fail at any point.
- **fstests configuration** (`Text`, `Lines`, `Readers`, `Sections`, `ConfigLines`, `Catalog`,
  `Devices`, `DeviceLines`).
  The catalog printer and its readers on characters; gating and binding of devices on lines.
- **Results** (`Numbering`, `Renaming`, `Rotation`, `RotationRules`, `RotationRuns`, `Xunit`). Rotation of
  earlier results by renames that would replace what they meet, and the aggregation of a
  report of several passes.
- **Smaller cores** (`Reflow`, `UnitEscape`, `Store`, `StoreTransport`, `Identity`). Greedy wrapping, systemd
  escaping (systemd.unit(5), section "String Escaping for Inclusion in Unit Names"), the
  store index as garbage-collection roots of several hosts, and build-identity labels.

`Wrappers` and `Seqs` hold the shared datatypes and facts about sequences.

## Where the code does not do what it says

Each of these is shown by a lemma on an input or by a theorem that constructs one, beside the
exact condition under which the promise holds.

- f/common/worktree.py:31-32 says that nothing the sync can run reverts a tracked edit. To git
  a file missing from the disk is an unchanged one. When the developer deleted a file without
  staging that, and the target changes it, `merge --ff-only` goes through and writes it back
  (`WorktreeSafety.DeletionComesBack`; exactly when a sync keeps everything:
  `WorktreeSafety.SyncKeepsExactly`, and file by file: `WorktreeSafety.SyncLeavesEditsInPlace`).
- f/common/worktree.py:32-34 says a sync that declines leaves the tree as it found it. A
  recreate removes the tree first; when git then refuses to lay it again, the sync declines and
  the tree is gone (`SyncContract.RecreateCanLeaveNoTree`; exactly when:
  `SyncContract.DeclineChangesNothingExactly`).
- f/kunit/common.py:69-74 anchors on the last header of the suite. A parameterised case that
  bears the suite's name prints a later, deeper header; the parser then reads the parameters
  as the suite, and a failing suite can read as a complete pass
  (`KunitNamesake.NamesakeReadsAsPass`; exactly when: `KunitKtap.AnchoredExactly`).
- f/kernel/bisect_step.py:436 searches "is the first bad commit" in all that git prints. A
  candidate whose subject line quotes the phrase ends the run, and no commit is named
  (`BisectSoundness.SubjectLineEndsTheRun`; exactly when:
  `BisectNaming.ConclusionNamesACommitExactly`).
- f/kunit/common.py:69-71 and f/selftests/common.py:130-131 count only the newest run of a
  text, and a cut text never reads as complete when it is not
  (`KunitKtap.TruncationNeverReadsComplete`, `SelftestsKtap.TruncationNeverReadsComplete`).
  A text of two runs that lost the later header, and in KUnit's form the earlier verdict, can
  read as one complete run that never was (`KunitRuns.DifferentRunsMix`,
  `SelftestsRuns.DifferentRunsMix`; exactly for which runs: `KunitRuns.NeverMixesExactly`,
  `SelftestsRuns.NeverMixesExactly`).
- The bound on bisect calls counts calls that return. A refused `git bisect start` raises
  and leaves the state as it was, so repeating it does not progress
  (`BisectNaming.RefusedStartStalls`; exactly when: `BisectSoundness.RaisesExactly`).
- f/common/worktree.py:719-720 says an anchored commit stays reachable. A third different
  application of one series moves the anchor off the second
  (`Series.AnchoredCommitCanBeStranded`; exactly when: `Series.PublishKeepsReachableExactly`).
- f/common/gitrefs.py:346 says its order is that of the worktree steps. A developer branch
  mirror/b4/<slug> is read by those and not by `qualify_ref` (`Series.ReadersDisagree`;
  exactly when each finds the branch: `Series.PublishedBranchResolves`).
- f/fstests/render_config.py:124-125 says `.notrun` and already rotated files are left in
  place. A failing test's `.notrun` is rotated with the rest, and an archived file with a
  suffix outside the list is rotated again (`RotationRuns.SkipNoteMovesAgain`; exactly when:
  `RotationRuns.ArchivedStaysExactly`). It keeps its content and a free name, so nothing is
  lost.
- f/fstests/render_config.py:110 looks for a free result name only. A log whose result is
  gone is overwritten (`Rotation.LogWithoutResultIsLost`; exactly when:
  `Rotation.RotateResultsKeepsExactly`); over runs in which nobody deletes rotated files this
  cannot happen (`RotationRuns.RotationSafe`).
- f/fstests/render_config.py:107 rotates only when there is a result.xml. The artifacts of a
  run cut short before it wrote one are overwritten by the next
  (`RotationRuns.UnrotatedIsLost`; exactly when: `RotationRuns.RenderArchivesExactly`).
- f/fstests/common.py:725-731 cuts the first block of a section. With the header twice,
  `section_vars` reads both blocks and the cut-out piece only the first
  (`Sections.DuplicateHeaderDiffers`; exactly when: `Sections.BlockRefinesExactly`).
- f/fstests/render_config.py:297-307 counts a log device even for a section that names its
  own (`Devices.OwnLogDeviceTurnedAway`; exactly when: `Devices.GateTooStrictExactly`).
- f/fstests/common.py:959-960 calls `fails` the number of passes that failed; it counts
  failure elements (`Xunit.TwoFailuresCountTwice`; exactly when the two agree:
  `Xunit.FailsCountsElements`).
- f/common/store.py:309-325 does not look at the local index, so a sweep moves a live name
  off the path `resolve` returned (`Store.FetchMovesLiveName`; exactly when:
  `Store.FetchMovesExactly`).
- f/common/store.py:226-242 overlooks an entry whose time is not after -1
  (`Store.LayerBeforeTheEpoch`; exactly when none is found: `Store.HostStore.LatestRunLayer`).
- f/kernel/identity.py:63-67 recognises only the label being baked. Another label stays in
  the release (`Identity.RelabelKeepsOldLabel`; exactly when:
  `Identity.RelabelReplacesExactly`).
- f/kernel/identity.py:79-95 applied to its own result can shorten it further
  (`Identity.RefitChanges`; exactly when a label is left as it is: `Identity.FitLabelFitting`).
- f/common/worktree.py:369 can change a ref after all: on an unborn branch `merge --ff-only`
  gives birth to it at the target (`WorktreeSafety.BirthMovesARef`; exactly when:
  `WorktreeSafety.SyncFrame`). Nothing is lost by that, also when two trees share the branch
  (`WorktreeSafety.MergeKeeps`).

## Model

| member | source | states |
|---|---|---|
| `History.AncestorsAreThePaths` | f/common/worktree.py:399-413 | the history a rev-list walks is exactly what a chain of parent edges reaches |
| `WorktreeSafety.SyncKeeps` | f/common/worktree.py:312-384 | in every valid state, for every request and every choice of commands git refuses, one sync keeps a live commit, a ref value or a staged, modified or untracked file if and only if that is not an unstaged deletion the fast-forward overlooks; the recreate path included |
| `WorktreeSafety.SyncKeepsExactly` | f/common/worktree.py:24-36 | one sync keeps everything if and only if no file on which HEAD and the target it advances to differ is in the index as at HEAD and missing from the disk |
| `WorktreeSafety.DeletionComesBack` | f/common/worktree.py:31-32 | for any file deleted on disk whose content the next commit changes, the sync succeeds and the file is back |
| `WorktreeSafety.SyncLeavesEditsInPlace` | f/common/worktree.py:20-36 | an edited file of any tree keeps its staged and its on-disk content in that same tree if and only if it is no such deletion; then it is as the target has it |
| `WorktreeSafety.SyncFrame` | f/common/worktree.py:312-384 | no other path changes, no ref moves, and a ref is added if and only if the path holds a tree on an unborn branch, nothing in progress, recreate off, and git lets the fast-forward through; then it is that branch, at the target |
| `WorktreeSafety.BirthMovesARef` | f/common/worktree.py:369 | a sync of a tree on an unborn branch makes that branch |
| `WorktreeSafety.SyncHonest` | f/common/worktree.py:320-327 | the commit returned is the real HEAD on every path, and no reason means HEAD is the target in a tree of this Bare with nothing in progress |
| `SyncContract.SyncCarries` | f/common/worktree.py:320-348 | after a sync that succeeds, every file of a tree laid fresh or again is the target's, in the index and on disk, and so is every file of a kept tree that was not edited; an ignored file the target does not track stays |
| `SyncContract.SyncReasonExactly` | f/common/worktree.py:328-384 | each of the eight reasons is given if and only if it is so, told from the path, HEAD, the edits, the refs and what git refuses |
| `SyncContract.DeclineChangesNothingExactly` | f/common/worktree.py:32-34 | a sync that declines changes nothing if and only if it had not removed the tree for a recreate that git then refused to lay |
| `SyncContract.RecreateCanLeaveNoTree` | f/common/worktree.py:336-347 | for any clean tree of an empty commit on its branch, such a recreate declines and the tree is gone |
| `WorktreeSafety.SyncSucceedsExactly` | f/common/worktree.py:328-384 | when a sync succeeds, both directions: what must hold of the path, the HEAD, the edits and the refs |
| `WorktreeSafety.SyncRepeats` | f/common/worktree.py:312-384 | repeating a successful sync without recreate succeeds again, on the same commit, whatever git refuses |
| `WorktreeSafety.SyncAttaches` | f/common/worktree.py:346-384 | where a successful sync leaves HEAD, in every case: a tree laid fresh or again, on a branch, detached at the target or elsewhere |
| `WorktreeSafety.SyncKeepsHeldOnce` | f/common/worktree.py:447-474 | no sync checks out a branch another worktree holds |
| `WorktreeSafety.RemoveKeeps` | f/common/worktree.py:387-419 | a removed tree takes no commit and no edited file with it |
| `WorktreeSafety.MergeKeeps` | f/common/worktree.py:360-373 | the fast-forward of a tree on no branch keeps a thing, in that tree or in one sharing its unborn branch, if and only if it is not a deletion it overlooks; what was staged as the target has it is recorded by the target |
| `TwoTree.RowExactly` | f/common/worktree.py:365-369 | what a fast-forward does to a file, row by row of git's two-tree table: it keeps it, takes the target's, or refuses |
| `TwoTree.CollidesExactly` | f/common/worktree.py:365-369 | it is refused if and only if some file's row says so |
| `TwoTree.OverlookedExactly` | f/common/worktree.py:31-32 | the deletions it overlooks are the files it takes though they are not on disk |
| `TwoTree.DirtyExactly` | f/common/worktree.py:387-394 | what counts as an edit, told from HEAD, the index, the disk and the ignore rules |
| `WorktreeSafety.CheckoutKeeps` | f/common/worktree.py:375-384 | re-attaching a tree to a branch at its own commit loses nothing |
| `WorktreeSafety.AddKeeps` | f/common/worktree.py:346-353 | laying a worktree changes no ref and no other tree |
| `WorktreeSafety.EveryLossIsTraced` | f/common/worktree.py:24-36 | over any interleaving of syncs with arbitrary developer actions, whatever is lost was lost by a developer step, or is an unstaged deletion that a sync overlooked |
| `DeveloperTree.Bare.RemoveTree` | f/common/worktree.py:387-419 | the removal, command by command, follows its specification |
| `DeveloperTree.Bare.SyncTree` | f/common/worktree.py:312-384 | the sync, command by command, follows its specification, reports the real HEAD and keeps exactly what a developer holds but the deletions it overlooks |
| `Series.BranchesNeverMove` | f/common/worktree.py:714-751 | over any sequence of publications, alike slugs included, no existing branch moves |
| `Series.EffectiveRefStaysExact` | f/nix/prepare_overrides.py:58-60 | the effective ref denotes the commit just applied, then and after any later publications |
| `Series.PublishExactly` | f/common/worktree.py:727-751 | the branch is returned if and only if it rests on the commit already, or there is none and git makes it; the one ref set, if any, is the branch where there was none, else the anchor |
| `Series.PublishedHeadIsLive` | f/common/worktree.py:722-727 | unless git refuses, the commit just applied rests under the new branch or under the anchor, and an existing branch stays |
| `Series.PublishKeepsReachableExactly` | f/common/worktree.py:717-720 | a publication keeps every reachable commit reachable if and only if it does not move an anchor off a commit nothing else reaches |
| `Series.AnchoredCommitCanBeStranded` | f/common/worktree.py:717-720 | the promise that an anchored commit stays reachable fails at the third different application of one series |
| `Series.PublishedBranchResolves` | f/common/gitrefs.py:343-370 | exactly which other names keep a published branch from resolving to itself, in each of the two resolvers |
| `Series.ShadowsAre` | f/common/gitrefs.py:346-347 | the fifteen names the worktree steps try first, one by one |
| `Series.QualifiesExactly` | f/common/gitrefs.py:343-370 | a full refname stands for itself; of any other a tag wins, then the mirror's branch, a local branch, any remote-tracking ref |
| `Series.ReadersAgreeUnshadowed` | f/common/gitrefs.py:346-351 | both resolvers read back the branch and the commit just published when nothing shadows it |
| `Series.ReadersDisagree` | f/common/gitrefs.py:346-347 | a developer branch mirror/b4/<slug> makes the two orders differ, although no tag or mirror branch shadows the name |
| `Bisect.Newest` | f/kernel/bisect_step.py:98-103 | the report chosen is the newest, the earliest candidate on a tie |
| `Bisect.FreshVerdict` | f/kernel/bisect_step.py:93-123 | the loop over the candidates yields the verdict of the newest report written after the last decision, none otherwise |
| `Bisect.StateDir.Step` | f/kernel/bisect_step.py:347-453 | one call updates the state and the marks as the phase machine prescribes, or raises and writes no state |
| `BisectSteps.OutcomeExactly` | f/kernel/bisect_step.py:395-446 | each of the seven outcomes a returning call leaves, if and only if phase, verdict, reply, head and step count call for it |
| `BisectSteps.DeclarationConcludes` | f/kernel/bisect_step.py:434-438 | when git declares a commit the run ends with first_bad_found and that commit |
| `BisectSteps.GoesOnTo` | f/kernel/bisect_step.py:400-446 | where a run that goes on is sent: to the good endpoint, then to what git has at BISECT_HEAD, a step at a time |
| `BisectSteps.StepIsRecorded` | f/kernel/bisect_step.py:398-453 | every returning call appends its verdict on its candidate and its time, keeps the endpoints, and tells git that verdict, or both endpoints when a bisect starts |
| `BisectSteps.StartsOver` | f/kernel/bisect_step.py:347-394 | without a state of an unfinished run with the same inputs a run starts on the bad endpoint, if and only if both inputs resolve |
| `Bisect.TotalAdds` | f/kernel/bisect_step.py:93-123 | the run times of a report are added up |
| `BisectSoundness.VerdictMeaning` | f/kernel/bisect_step.py:93-123 | good, and bad, both directions: what the newest report must say, newer than the last decision and readable; anything else is skip |
| `BisectSoundness.AdvanceConsistent` | f/kernel/bisect_step.py:365-449 | every call keeps the invariant: the marks are the recorded iterations and nothing is marked before both endpoints were judged, bad and good |
| `BisectSoundness.RunConsistent` | f/kernel/bisect_step.py:347-453 | the invariant holds after every call of any run |
| `BisectSoundness.FirstBadIsSound` | f/kernel/bisect_step.py:434-438 | a named first bad commit was judged bad and each of its parents is an ancestor of, or is, a commit judged good |
| `BisectSoundness.FirstBadIsTheRegression` | f/kernel/bisect_step.py:434-438 | with truthful verdicts on a property closed under ancestors, the named commit fails and all of its ancestors work |
| `BisectNaming.ConclusionNamesACommitExactly` | f/kernel/bisect_step.py:434-438 | over all runs on given endpoints, adjacent ones and candidates git stays on included, every conclusion names a commit if and only if no commit the run can be sent to has a subject that quotes the phrase, unless it is the only such commit |
| `BisectSoundness.SubjectLineEndsTheRun` | f/kernel/bisect_step.py:436-438 | a candidate whose subject line quotes the phrase ends the run without naming a commit |
| `BisectSoundness.CallProgresses` | f/kernel/bisect_step.py:395-449 | every call that returns comes nearer to an outcome, whatever verdict arrives and whatever candidate git names |
| `BisectSoundness.OutcomeWithinBound` | f/kernel/bisect_step.py:439-446 | with fixed inputs an outcome is set within 3 + max(1, max_steps) calls that return |
| `BisectSoundness.RaisesExactly` | f/kernel/bisect_step.py:412-422 | on a running state a call raises if and only if git refuses to start on endpoints judged as expected, and then changes nothing |
| `BisectNaming.RefusedStartStalls` | f/kernel/bisect_step.py:412-422 | a run on which git refuses to start: the call raises and the next finds the same state |
| `BisectSoundness.ReportDecidesOnce` | f/kernel/bisect_step.py:104-105 | with a monotone clock, a verdict after a call that returned comes from a strictly later report write, whatever calls raised in between |
| `KunitKtap.ParseKtap` | f/kunit/common.py:87-151 | the two searches and the scan compute the parse |
| `KunitReading.ParseMeans` | f/kunit/common.py:87-151 | on any text with a header of the suite: the tests are the results at its indent up to the first shallower one, and the report is complete if and only if the first plan there is their number and the suite's last stats line, wherever it stands, has their counts |
| `KunitKtap.TestsAsPrinted` | f/kunit/common.py:114-132 | the test a result line reports: SKIP decides, then ok or not ok, and the directive is the message |
| `KunitKtap.AnchoredExactly` | f/kunit/common.py:89-96 | the parser reads the suite's own block if and only if no nested header bears its name |
| `KunitKtap.RoundTrip` | f/kunit/common.py:63-151 | reading a printed suite, at any indent, with any deeper output, after anything, gives exactly its tests with the names, statuses and messages printed, complete, with matching counts |
| `KunitKtap.LossNeverReadsComplete` | f/kunit/common.py:77-81 | in a text of any number of runs, whatever lines are lost, a parse that is complete has every test of the last run whose header survives, with its printed status; unless that run lost its verdict while later lines survive |
| `KunitKtap.TruncationNeverReadsComplete` | f/kunit/common.py:77-81 | a text of any number of runs cut anywhere: a complete parse has every test of the last run whose header stands before the cut |
| `KunitRuns.NeverMixesExactly` | f/kunit/common.py:77-81 | for two runs of a suite, a complete parse is that of the last surviving header under every loss if and only if both list the same tests and all of these are alike; otherwise some loss reads as a complete run that never was |
| `KunitKtap.SubsequenceNeverReadsComplete` | f/kunit/common.py:77-81 | the same for every subsequence of the printed lines |
| `KunitNamesake.NamesakeReadsAsPass` | f/kunit/common.py:69-74 | a failing suite of one parameterised case that bears its name reads as a complete pass from an intact journal |
| `Loss.LossIsSubsequence` | f/kunit/common.py:77-81 | losing lines by position and being a subsequence are the same, both directions |
| `SelftestsKtap.ParseKtap` | f/selftests/common.py:149-206 | the search for the last header and the scan compute the parse |
| `SelftestsReading.ParseMeans` | f/selftests/common.py:149-206 | on any text with a version header: the tests are the results after it, and the report is complete if and only if the first plan is their number and the last totals line has their counts |
| `SelftestsKtap.TestsAsPrinted` | f/selftests/common.py:170-194 | the test a result line reports: SKIP decides, then ok or not ok; a pass keeps its directive only for XFAIL |
| `SelftestsKtap.TextBeforeIsIrrelevant` | f/selftests/common.py:130-131 | text before the last version header does not matter |
| `SelftestsKtap.OutputNeverMatters` | f/selftests/common.py:127-129 | dropping a line of test output changes nothing, an imitation of the totals line included when real totals follow |
| `SelftestsKtap.CountsAddUp` | f/selftests/common.py:159-194 | passed, failed and skipped add up to the number of tests |
| `SelftestsKtap.RoundTrip` | f/selftests/common.py:122-206 | reading a printed run gives exactly its tests with the names, statuses and messages printed, complete, with matching counts |
| `SelftestsKtap.LossNeverReadsComplete` | f/selftests/common.py:138-143 | in a text of any number of runs, whatever lines are lost, a parse that is complete has every test of the last run whose header survives, with its printed status; unless later plans or results survive without their header |
| `SelftestsKtap.TruncationNeverReadsComplete` | f/selftests/common.py:138-143 | a text of any number of runs cut anywhere: a complete parse has every test of the last run whose header stands before the cut |
| `SelftestsRuns.NeverMixesExactly` | f/selftests/common.py:138-143 | for two runs, a complete parse is that of the last surviving header under every loss if and only if both list the same tests and all of these are alike |
| `Polling.FetchIsExact` | f/common/remote.py:38-51 | a read from a cursor yields exactly the matching records appended since the last read, and leaves the reader caught up |
| `Polling.RuntimeWait.Fetch` | f/runtime_tests/wait.py:166-172 | one poll keeps both collections exact, also when it fails between its two reads |
| `Polling.RuntimeWait.PollOnce` | f/runtime_tests/wait.py:174-226 | one poll says why the wait goes no further, a guest that is down before an outcome, an outcome before the deadline, and leaves both positions where the successful reads got |
| `Polling.RuntimeWait.Wait` | f/runtime_tests/wait.py:174-226 | for any schedule of polls, errors and deadline: the poll it stops at and why, both read positions, the outcome, and the kernel lines, exactly those between the start cursor and the last successful read |
| `Polling.KunitWait.Fetch` | f/kunit/wait.py:122-160 | one poll folds exactly the new unit records |
| `Polling.KunitWait.Wait` | f/kunit/wait.py:161-203 | for any schedule: the poll it stops at and why, the read position, and the outcome and the KTAP of the journal up to it |
| `Polling.LastReadIs` | f/runtime_tests/wait.py:166-172 | the position a schedule leaves a reader at is that of its last successful read |
| `Polling.NothingRead` | f/runtime_tests/wait.py:166-172 | without a successful read it stays where it was |
| `Polling.StopIsUnique` | f/runtime_tests/wait.py:174-226 | a schedule determines the poll the wait stops at |
| `Polling.ConcludedCoversTheRun` | f/runtime_tests/wait.py:166-172 | a wait that ended by itself has every kernel record that precedes the outcome |
| `Polling.ResultMeansOutcome` | f/runtime_tests/wait.py:137-164 | a result is set if and only if an outcome record was folded |
| `JobOutcome.ResultExactly` | f/runtime_tests/wait.py:137-164 | the result is done, failed or skipped if and only if the last record that settles the job is of that kind, stopped if and only if none does and a stop was read, and empty otherwise |
| `JobOutcome.SettledBy` | f/runtime_tests/wait.py:149-161 | the last settling record gives the end time as well |
| `JobOutcome.StoppedBy` | f/runtime_tests/wait.py:161-164 | without one the first stop record does |
| `JobOutcome.StartedAtIs` | f/runtime_tests/wait.py:143-146 | the start is that of the first start record that carries a time |
| `JobOutcome.ExecStatusIs` | f/runtime_tests/wait.py:147-148 | the exit status is that of the last process exit |
| `JobOutcome.KtapIs` | f/kunit/wait.py:127-128 | the KTAP is the unit's own output in order |
| `JobOutcome.OutcomeIs` | f/common/remote.py:38-51 | what a wait knows is told from the unit's own records and those about it, in order, up to its last read |
| `JobOutcome.KmsgIs` | f/runtime_tests/wait.py:171-172 | the kernel lines are the kernel's messages, in order |
| `JobOutcome.EndExactly` | f/runtime_tests/wait.py:174-219 | why a poll ends a wait: the guest is down, or every read went through and a result is known, or else the deadline has passed, each if and only if |
| `JobOutcome.WaitEndsExactly` | f/runtime_tests/wait.py:174-219 | a wait ends at the first poll that ends it, for its reason, or with its polls |
| `JobOutcome.LastFetchCounts` | f/runtime_tests/wait.py:218-226 | a wait that timed out reads once more, any other has read up to the poll it ended with |
| `JobOutcome.PositionIs` | f/runtime_tests/wait.py:166-172 | each position is the journal's length at the channel's last read that went through |
| `Polling.OutcomeWasRead` | f/runtime_tests/wait.py:137-164 | a known result comes from an outcome record inside the part already read |
| `Polling.KmsgCoversTheRun` | f/runtime_tests/wait.py:166-172 | the kernel lines collected cover every kernel record that precedes the outcome record |
| `Polling.SplitNeverMatters` | f/kunit/wait.py:122-160 | when the outcome record ends the unit's stream, outcome and KTAP do not depend on how polls split it |
| `Reflow.GreedyIsBreaking` | scripts/reflow-descriptions.py:75-87 | the greedy lines hold the words in order, each fitting or a single word |
| `Reflow.GreedyIsOptimal` | scripts/reflow-descriptions.py:75-87 | no breaking of the same words uses fewer lines |
| `Reflow.WrapIsOptimal` | scripts/reflow-descriptions.py:75-87 | no setting of a text's words, each line fitting or a single word, has fewer lines than wrapping it |
| `Reflow.WrapParagraph` | scripts/reflow-descriptions.py:75-87 | the one-pass loop computes the greedy breaking of the text's words |
| `Reflow.WrapKeepsWords` | scripts/reflow-descriptions.py:75-87 | the wrapped lines carry the words of the text in order, each within the width or one word |
| `Reflow.WrapIsIdempotent` | scripts/reflow-descriptions.py:75-87 | wrapping the wrapped text changes nothing |
| `Reflow.BuildLiteralBlock` | scripts/reflow-descriptions.py:90-100 | the block is the header line and the indented paragraphs, a blank line between each two |
| `Reflow.OverlongLines` | scripts/reflow-descriptions.py:111-118 | the offending lines, no others, with number and length |
| `Reflow.LiteralBlockNeverFolds` | scripts/reflow-descriptions.py:90-118 | a block has no line overlong_lines reports if and only if its header line fits |
| `Reflow.LiteralBlockKeepsWords` | scripts/reflow-descriptions.py:90-100 | every word of the description is in the block, in order |
| `Rotation.RotateResultsKeepsExactly` | f/fstests/render_config.py:99-117 | a rotation overwrites nothing and keeps every file, if and only if no old log of that index has lost its result |
| `RotationRules.MovesExactly` | f/fstests/render_config.py:86-89 | a file is moved if and only if it is not an archived one and its test has a failure file, or it is a core file, told from the names as spelled |
| `RotationRules.MovesTo` | f/fstests/render_config.py:142-149 | and then to the test's name, the index and its suffix |
| `Rotation.LogWithoutResultIsLost` | f/fstests/render_config.py:109-116 | an archived log whose result is gone is overwritten and no file has its content any more |
| `Rotation.NewNamesDistinct` | f/fstests/render_config.py:142-149 | at a free index no two artifacts get the same name |
| `Rotation.MoveMapSafe` | f/fstests/render_config.py:142-149 | at a free index no rename of a group meets an existing file |
| `Rotation.SectionDir.RotateResults` | f/fstests/render_config.py:107-117 | the index search ends at the first free index and the two renames give the rotated directory |
| `Rotation.SectionDir.FailingBases` | f/fstests/render_config.py:131-141 | the failing tests are those with a failure file that is not yet rotated |
| `Rotation.SectionDir.RotateGroup` | f/fstests/render_config.py:130-149 | renaming file by file, in any order, gives every file its new name with its content, and counts the moves |
| `Rotation.SectionDir.RotateFailureArtifacts` | f/fstests/render_config.py:120-150 | every group is renamed so, and the count returned is that of the files moved |
| `RotationRuns.RotationSafe` | f/fstests/render_config.py:99-150 | with indices 1..m in use a rotation takes m + 1, overwrites nothing and leaves 1..m + 1 in use |
| `RotationRuns.RotateSection` | f/fstests/render_config.py:99-150 | both steps chained share that index; without a result neither moves anything |
| `RotationRuns.NothingLeftToOverwrite` | f/fstests/render_config.py:99-150 | after a rotation no result, log or failure file stands where the next run writes |
| `RotationRuns.RunIndexed` | f/fstests/render_config.py:109-111 | over any number of renders and test runs, renders that find no result.xml included, the indices in use stay exactly 1..m |
| `RotationRuns.RunTakesNextIndex` | f/fstests/render_config.py:109-111 | the index of every rotation of a run is forced |
| `RotationRuns.EveryResultKept` | f/fstests/render_config.py:99-106 | every result and log any render found is still there under its index at the end |
| `RotationRuns.ArtifactsKept` | f/fstests/render_config.py:120-126 | any two archived artifacts survive any number of renders and runs with their content, still numbered and under distinct names |
| `RotationRuns.EveryArtifactKept` | f/fstests/render_config.py:120-126 | every failure artifact any rotation of a run finds is archived at the end of it, with its content |
| `RotationRuns.ArtifactsStayApart` | f/fstests/render_config.py:120-126 | two of them, found by one rotation or by two, end under distinct names |
| `RotationRuns.RenderArchivesExactly` | f/fstests/render_config.py:107-110 | a render archives a failing test's artifact if and only if the section has a result.xml |
| `RotationRuns.UnrotatedIsLost` | f/fstests/render_config.py:107-110 | the artifact of a run cut short before its result.xml is lost to the next run |
| `RotationRuns.FailureArtifactArchived` | f/fstests/render_config.py:120-126 | every artifact of a failing test is archived by the rotation |
| `RotationRuns.ArchivedStaysExactly` | f/fstests/render_config.py:124-125 | an archived file stays in place if and only if its suffix is listed or nothing of its test failed again |
| `RotationRuns.SkipNoteMovesAgain` | f/fstests/render_config.py:124-125 | an archived skip note is renamed again, though archived files are said to be left in place |
| `Numbering.Pad4Injective` | f/fstests/render_config.py:110-116 | distinct indices have distinct padded names, past 9999 as well |
| `Sections.CollectSections` | f/fstests/common.py:667-681 | the loop computes the section names |
| `Readers.NamesAreTheHeaders` | f/fstests/common.py:667-681 | the names are those of the named headers, each once |
| `Sections.CollectVars` | f/fstests/common.py:696-722 | the loop computes the variables of a section |
| `ConfigLines.SplitLinesExactly` | f/fstests/common.py:674-675 | a text is its first line, up to the first break, and the lines after it; a carriage return and its line feed are one break |
| `ConfigLines.LastLine` | f/fstests/common.py:674-675 | without a break it is one line, none when it is empty |
| `ConfigLines.StripTrims` | f/fstests/common.py:705-706 | stripping takes the white space off both ends and nothing else |
| `ConfigLines.HeaderExactly` | f/fstests/common.py:664-681 | a line opens a section if and only if it begins with a non-empty bracketed name, and then the section of that name |
| `ConfigLines.AssignmentExactly` | f/fstests/common.py:706-721 | a line assigns if and only if it has a key left of its first equals sign and is neither a comment nor a header |
| `ConfigLines.QuotesExactly` | f/fstests/common.py:684-694 | a value loses one pair of like quotes, single or double |
| `Readers.CutLines` | f/fstests/common.py:725-744 | the loop cuts from the section's first header to the next header |
| `Sections.CutBlock` | f/fstests/common.py:725-744 | the block is those lines, trailing white space stripped |
| `Sections.BlockRefinesExactly` | f/fstests/common.py:725-731 | on any text, the variables read from the cut-out block are those read from the whole file if and only if the block has all that the file assigns to the section later; a section never opened is covered |
| `Sections.BlockRefinesFile` | f/fstests/common.py:725-731 | so they are for a header that occurs once |
| `Sections.DuplicateHeaderDiffers` | f/fstests/common.py:725-731 | a text with the header twice on which the two readings differ, for every section name, key and value |
| `Catalog.RenderCatalog` | f/fstests/common.py:345-379 | the loop prints the catalog text |
| `Catalog.CatalogNames` | f/fstests/common.py:345-379 | the section names read back from the printed catalog are the profile names, in order |
| `Catalog.CatalogRoundTrip` | f/fstests/common.py:345-379 | the variables read back, from the text and from the cut-out block, are the profile's own |
| `Lines.SplitJoined` | f/fstests/common.py:379 | the joined lines of a text split back into themselves |
| `Devices.GateExactly` | f/fstests/render_config.py:253-309 | each reason to turn a section away, and none, if and only if the sizes, the format and the number of devices call for it |
| `Devices.GatedNeverFails` | f/fstests/render_config.py:253-309 | a section that passes the gate meets everything the injector asks for |
| `Devices.InjectFailsExactly` | f/fstests/common.py:565-661 | the injector fails if and only if the devices run out |
| `DeviceLines.InjectFailsWith` | f/fstests/common.py:595-628 | and then its error names the devices needed, one more with a replay log to place |
| `DeviceLines.InjectExactly` | f/fstests/common.py:592-661 | what becomes of any section, one with devices of its own included: its lines stay but for the first empty declaration of each external variable, which gets the device of its turn, and exactly the base lines it calls for are added |
| `DeviceLines.ExternalsAre` | f/fstests/common.py:545-562 | the external variables declared empty, in the order they are served |
| `DeviceLines.DeviceSectorExactly` | f/fstests/common.py:525-533 | the largest sector size any drive reports, 512 when none does |
| `Devices.GateTooStrictExactly` | f/fstests/render_config.py:294-307 | of the sections whose block, sector size and format suit the device, the gate turns away one the injector could serve if and only if it brings its own log device and the guest has just enough for the rest |
| `Devices.OwnLogDeviceTurnedAway` | f/fstests/render_config.py:294-307 | on two devices such a section is turned away and the injector would have served it |
| `Devices.ArmSections` | f/fstests/render_config.py:239-309 | the armed sections are those that pass the gate, in order with their injected text; the skipped ones are the others, in order with their reason; too few devices is the one error |
| `Devices.BindsExactly` | f/fstests/common.py:565-661 | an armed device-agnostic section binds a device to a role if and only if the device's position calls for it |
| `Devices.NoDeviceTwice` | f/fstests/common.py:565-661 | distinct devices: none is bound to two roles |
| `Devices.OneScratch` | f/fstests/common.py:565-661 | the test device is bound, and exactly one of SCRATCH_DEV and SCRATCH_DEV_POOL |
| `Xunit.Summarise` | f/fstests/common.py:905-997 | the totals count each distinct test once under one status, the clamp never fires, the iteration count is the largest number of passes, and the rows are one per test, in order |
| `Xunit.Aggregate` | f/fstests/common.py:908-947 | the loop over the testcases tallies passes, failures, skips and first failures of every test |
| `Xunit.StatusMeaning` | f/fstests/common.py:950-953 | failed if and only if some pass failed; not run if and only if every pass was skipped without failing; passed otherwise |
| `Xunit.OrderNeverMatters` | f/fstests/common.py:898-904 | no count and no status depends on the order of the passes |
| `Xunit.TotalsIgnoreOrder` | f/fstests/common.py:898-904 | nor do the totals |
| `Xunit.FailsCountsElements` | f/fstests/common.py:959-962 | the row's fails equals the number of failing passes if and only if no pass carries two failure elements |
| `Xunit.TwoFailuresCountTwice` | f/fstests/common.py:959-962 | one failing pass with two failure elements gives a row with fails 2 |
| `Xunit.Sort` | f/fstests/common.py:963-984 | the rows sorted are the rows, in order of status and name |
| `UnitEscape.UnitEscape` | f/selftests/common.py:221-243 | the loop computes the escaping |
| `UnitEscape.RoundTrip` | f/selftests/common.py:221-243 | unescaping gives back the bytes of every name |
| `UnitEscape.EscapeInjective` | f/selftests/common.py:221-243 | distinct names have distinct escapings |
| `UnitEscape.EscapedIsValid` | f/selftests/common.py:221-243 | an escaped name holds only characters valid in a unit instance and does not start with a dot |
| `UnitEscape.StaysExactly` | f/selftests/common.py:221-243 | an escaped name is the name itself if and only if it is letters, digits, colons, underscores and dots, no dot first |
| `UnitEscape.ItemUnitInjective` | f/selftests/common.py:249-254 | distinct run items start distinct units |
| `UnitEscape.UnitNames` | f/selftests/common.py:249-254 | an item with a colon starts a test unit, any other a collection unit, and the instance reads back as the item |
| `Store.EntriesAreMadeValid` | f/common/store.py:163-168 | no event creates or moves an index entry to a path the host does not have |
| `Store.ResolveRoots` | f/common/store.py:328-344 | a path resolve returns is valid and rooted here under its name |
| `StoreTransport.PublishExactly` | f/common/store.py:102-108 | a publication returns if and only if the name can be linked, and then the path it added, rooted under the name and nothing else changed |
| `StoreTransport.ResolveExactly` | f/common/store.py:328-345 | resolving: the path here; else the one the named peer has, then rooted here; none when neither names one; an error when the peer's cannot be brought |
| `StoreTransport.ResolveReturnsExactly` | f/common/store.py:328-345 | which path is returned, both directions |
| `StoreTransport.SweepExactly` | f/common/store.py:309-325 | a sweep asks the first peer that names a path and no other, with the same outcomes; without one nothing happens |
| `Store.RootSurvivesExactly` | f/common/store.py:328-344 | a rooted name keeps its path through an event on its host unless, and only unless, the event publishes another path under it, forgets it, or sweeps it and the first peer that carries it still has another path |
| `Store.RootedUntilUnrooted` | f/common/store.py:328-344 | over any run on any number of hosts, garbage collection included, a rooted path stays valid until such an event |
| `Store.FetchMovesExactly` | f/common/store.py:309-325 | a sweep moves a live name if and only if the first peer that carries it still has the path it names there, and that is another path |
| `Store.FetchMovesLiveName` | f/common/store.py:309-325 | sweeping the peers for a name that is live here can move it |
| `Store.PruneRemovesWhatListingHides` | f/common/store_index.py:170-181 | pruning removes an entry if and only if it is a link that listing hides |
| `Store.RunLayersAre` | f/common/store.py:211-223 | the run layers are the live entries of the project that are no devel layer |
| `Store.HostStore.PublishTree` | f/common/store.py:102-108 | publishing links the path it added |
| `Store.HostStore.ResolveName` | f/common/store.py:328-344 | the local index first, then the one named peer |
| `Store.HostStore.SweepPeers` | f/common/store.py:309-325 | the first peer that carries the name |
| `Store.HostStore.ForgetNames` | f/common/store_index.py:147-167 | confirmed names are unlinked and reported with the target each had, else nothing changes |
| `Store.HostStore.PruneDangling` | f/common/store_index.py:170-181 | one pass removes exactly the dangling links and reports them |
| `Store.HostStore.LatestRunLayer` | f/common/store.py:226-242 | a newest live run layer, the first listed on a tie, none if and only if there is none with a time after -1 |
| `Store.LayerBeforeTheEpoch` | f/common/store.py:226-242 | the only run layer of a project is not found when its time is -1 |
| `Identity.FitLabelBound` | f/kernel/identity.py:79-95 | a fitted label exceeds a positive budget if and only if its revision alone does, and then it is that revision |
| `Identity.FitLabelKeepsRevision` | f/kernel/identity.py:83-86 | a trailing -vN revision survives every positive budget |
| `Identity.FitHeadCutsAtDash` | f/kernel/identity.py:98-108 | a shortened head ends at the last dash within the budget, or at the budget without one, and on no separator |
| `Identity.FitLabelShape` | f/kernel/identity.py:79-95 | a fitted label is its revision behind a prefix of the rest, or the bare revision |
| `Identity.FitLabelFitting` | f/kernel/identity.py:79-108 | fitting leaves a label alone if and only if it is empty, or fits and is more than a bare -vN |
| `Identity.RefitChanges` | f/kernel/identity.py:79-108 | two fitted labels that fitting again changes |
| `Identity.FitLabelEnd` | f/kernel/identity.py:98-108 | a fitted label does not end on a separator unless the label did |
| `Identity.ReleaseFitsExactly` | f/kernel/identity.py:58-61 | with no prior suffix, when the release stays within 64 characters, both directions |
| `Identity.BakeKeepsTextExactly` | f/kernel/identity.py:61-68 | a bake keeps the setting's text in front of the label and the digest if and only if it ends neither in a digest nor in the label |
| `Identity.PriorOfBaked` | f/kernel/identity.py:63-67 | a second bake strips exactly what the first one added |
| `Identity.RelabelReplacesExactly` | f/kernel/identity.py:63-67 | baking another label replaces the earlier one if and only if there was none, it is the same, or the setting ended with it before the earlier bake |
| `Identity.RelabelKeepsOldLabel` | f/kernel/identity.py:63-67 | baking another label keeps the first one in the release |
| `Identity.SetLocalVersion` | f/kernel/identity.py:168-180 | the loop rewrites every setting, or adds one |
| `Identity.SetsExactly` | f/kernel/identity.py:168-180 | every setting line is rewritten, every other line stays, and one is added if and only if there was none |
| `Identity.SetThenExisting` | f/kernel/identity.py:160-180 | the value set is the value read back |
| `Identity.BakeIsIdempotent` | f/kernel/identity.py:63-69 | rewriting the setting twice with one label and digest is rewriting it once |

## Left out

- The mirror fetch (which prunes), `worktree prune`, `git am` and the b4 download around a
  sync; applying a series is the commit it leaves at HEAD.
- Git hooks, submodules, abbreviated object ids, and commands that fail half-way: a refused
  command leaves everything as it was.
- Ignored files: a removed tree takes them along, as the source says, and a fast-forward
  overwrites one that the target tracks. They are not among the things a developer holds.
- File modes, and a file that becomes a directory or the reverse.
- The build worktree of `prepare`, which is forced onto its target on purpose.
- `_slug`, `_b4_slug` and `_compute_label`: a series is its slug.
- `_read_refnames` and `_read_refs`: the refs are a map, read without races.
- Bisect: the guest bring-up arguments, the payload checks that raise before any state is
  read, and a crash between a mark and the write of state.json.
- `BisectSoundness.FirstBadIsSound`: takes git's declaration as honest, that is, made for
  the one suspect left.
- `BisectNaming.ConclusionNamesACommitExactly`: takes git to say the phrase of its own accord
  only when it declares, and to name only suspects or merge bases that are not marked yet;
  BISECT_HEAD may besides stay on the candidate, or on the bad endpoint at the start.
- The KTAP readers' regular expressions: a line arrives classified, with its indent. A line
  cut short in the middle is not modelled, only lines lost whole.
- `SelftestsKtap.RoundTrip`: asks for real totals or for no imitated ones, because an
  imitated totals line with no real one after it is what the parser checks against.
- `run_status` of every suite and the judgement of kernel messages.
- Polling: ssh and journald themselves, log streaming, and the fstests, blktests and qsu
  copies of the loop. A failed read is one whose cursor did not move.
- `Polling.RuntimeWait.Wait`: the schedule of polls is finite; what a wait does between
  polls is not modelled.
- Rotation: directories inside a group, `clean_results`, pruning of the share, and a crash
  between the renames. `RotationRuns` assumes a run leaves archived files alone.
- `Rotation.SectionDir.RotateGroup`: goes through the files in any order rather than test by
  test.
- Catalog: the profile matrix itself, and the parsing of block and sector sizes out of mkfs
  options, which the gate takes as given.
- Devices: a section is a list of assignments and remarks. The injector's regular expression
  lets an empty declaration reach over a line break; that is not modelled.
- `parse_xunit`: XML, run times, the failures and notruns lists and the files beside the
  report. `Xunit.Sort` is an insertion sort in place of the library's.
- `scripts/reflow-descriptions.py`: finding description blocks in YAML and rewriting files.
- Store: `publish_subset`, toolchain roots, sizes, a path that vanishes between two steps of
  one call, and entries that are directories. The order of a directory listing is given.
- Identity: the digest, CONFIG_LOCALVERSION_AUTO and the Makefile's own view of the release.
- Names, messages and file contents are compared and copied, never looked into, where the
  source does no more.
- Reading and writing of files is by whole value; times are whole numbers, sums of run times
  are exact.
