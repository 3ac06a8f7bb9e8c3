# Verified model of the review agent

A Dafny 4.11 model of the algorithms and the stateful protocols under the review agent, with proofs
over all inputs, all runs or all reachable states. `dafny verify dfyconfig.toml` checks everything.

- **Unified diffs** (`PatchModel`, `PatchExtension`, `PatchNumbering`, `PatchPlacement`, `PatchTheorems`,
  `PatchContext`, `PatchTopOfFile`, `PatchLineNumbers`, `PatchSections`, `PatchSelection`, `PatchSides`,
  `PatchStrays`, `PatchFallback`, `PatchPositions`, `DiffParsing`). Patches are lists of lines with parsed
  headers in the format of POSIX.1-2017 XCU `diff`, "Diff -u or -U Output Format". The specification is the two
  real files: a patch is well formed when its hunks turn one into the other. Widening, numbering, dropping,
  selecting, locating and reverse-applying are loops proved against functions, and the functions against the
  files.
- **Release switching** (`ReleaseModel`, `ReleaseTheorems`, `ReleaseRuns`, `ReleaseDecisions`, `Releases`). The
  persistent volume is a link, its temporary name, two markers, release directories and Git's worktree
  registrations with their locks. Every operation is a list of atomic operations on these, a removal among them
  first tearing the directory, a crash leaves a prefix of the list, and the class `ReleaseVolume` performs
  exactly those lists.
- **Token budgets** (`PrChunks`, `PrBatches`). Counting and clipping are arbitrary functions. Next-fit chunking
  is characterised by what it promises; greedy batching by the true sum of the wrappers placed, conservation and
  maximality.
- **Dashboard storage** (`ReviewStore`, `WriteOutcomes`, `DashboardStorage`, `EventStream`, `LoginLimiter`,
  `LoginFlood`, `LoginRetries`, `TextTruncation`, `FindingBounds`). Each SQL transaction is one step; other
  workers' transactions come before and between. UTF-8 is that of section 3 of RFC 3629.
- **Related files** (`RelatedText`, `RelatedFiles`, `RelatedPasses`), **the context cache**
  (`RepoContextCache`), **comment deduplication** (`InlineCommentStore`, `InlineMarkers`), **configuration**
  (`ConfigEngine`) and **the command tokenizer** (`CommandTokenizer`, `CommandWords`), each against the simple
  thing it must agree with.

Where the code does not meet a property, the model keeps the code, a lemma gives a concrete case, and the exact
condition is proved:

- a hunk that only deletes, printed without context, is reverse-applied one line too early (`MisplacedDeletion`);
- when widening is given up in front of a hunk, trailing lines are appended but not announced
  (`AbandonedHeaderIsWrong`; exactly when, `HeadersAreTruthful` and `AbandonsExactly`);
- trailing lines after a hunk without old lines carry wrong numbers (`EmptySideTrailDisagrees`; exactly when,
  `TrailAgreesInFiles`), and a start of 0 is widened and numbered as if it were a line (`TopDeletionTrail`,
  `TopDeletionHeader`, `TopInsertionHeader`);
- an added-file line in front of a patch keeps its first hunk from being dropped (`OmitPatch`);
- the line just above a hunk is located at the hunk's header (`UncoveredPositions`), and a missing-newline remark
  is counted as a line (`RemarkShiftsPositions`; exactly when, `PositionsAreTrue`); a file header in front of the
  first hunk hides the first lines of the file (`PreludeHidesFirstLines`);
- a release half removed by interrupted pruning can be taken for finished and served (`TornReleaseIsServed`;
  exactly when, `StepServesWhole`);
- a boot that crashes between removing a checkout's directory and unregistering it makes the next boot fail
  (`RetryIsRefused`; exactly when, `BootConverges` and `CrashRefuses`), and one killed inside `git worktree add` makes
  every later boot fail (`KilledAddSticks`, `LockSticks`; exactly when, `RefusalEnds`);
- the documentation of `finish_review` says it returns true only when its own row transitioned; a rolled-back
  attempt leaves the flag set (`FinishCanMisreport`). Terminal events stay true because the row is read back;
- a running review can be failed and deleted in one maintenance pass (`RunningRowCanVanish`);
- a saved cursor ahead of the event stream misses the next events (`NextEventIsAhead`);
- the row cap of the login limiter can forget failures (`CapForgets`; exactly when, `DecisionIsTheHistorys`), a login
  that lands late can be recorded in a full window (`LateCallOverfills`; exactly when, `EveryWindowHolds`), and a
  rolled-back attempt can turn a success into a lock-out (`LoginIsMisreported`; exactly when, `AnswerIsRight`);
- the lazy store forgets a fingerprint added back after its release and before the first load (`LazyForgets`);
- a configuration write reads content before signature, which only the lock makes safe
  (`OutsideEditMisleadsAWrite`), and a failed hot reload can leave a path behind (`StrayPathSurvives`; exactly when,
  `PathOutlives` and `RemovedPathStays`).

A restart is let through when its dependency check raises (pr_agent/dashboard/ops.py:305-308); the check catches the
errors of the files it reads and runs no process, so that handler is never taken and has no counterpart here.

## Model

| member | source | states |
|---|---|---|
| DiffParsing.ReverseInvertsApply | pr_agent/git_providers/diff_parsing.py:71-114 | if applying a patch to the old file gives the new one, reverse-applying it to the new file gives the old one back, line for line, if and only if every hunk with an empty new side stands at a line, still ahead of the cursor, that equals every line it deletes |
| DiffParsing.ApplyInvertsReverse | pr_agent/git_providers/diff_parsing.py:71-114 | whenever the old file can be rebuilt, re-applying the patch to it gives the new file, under the same condition on hunks with an empty new side |
| DiffParsing.KeptLinesCommute | pr_agent/git_providers/diff_parsing.py:94-106 | a patch whose hunks all keep or add a line never meets that exception |
| DiffParsing.MisplacedDeletion | pr_agent/git_providers/diff_parsing.py:94-106 | the exception is real: a one-hunk patch that deletes the second line rebuilds the two lines in the wrong order |
| DiffParsing.WalkIsSideMatch | pr_agent/git_providers/diff_parsing.py:96-112 | the walk over one hunk succeeds exactly where its new side stands in the file, and emits its old side |
| DiffParsing.WalkHunk | pr_agent/git_providers/diff_parsing.py:93-105 | the inner loop checks a hunk's new side against the file, collects its old side, and fails exactly where the walk does |
| DiffParsing.ReconstructBaseFile | pr_agent/git_providers/diff_parsing.py:71-114 | the cursor loops over hunks and lines produce the rebuilt file those theorems are about, or its failure |
| PatchTheorems.ExtensionKeepsChanges | pr_agent/algo/git_patch_processing.py:61-188 | for every patch and every pair of files, well formed or not, widening inserts only context: the added and deleted lines are the same, in the same order |
| PatchTheorems.ExtendFlatten | pr_agent/algo/git_patch_processing.py:61-188 | a patch made of hunks is widened hunk by hunk: each comes out as one header, its leading context, its own body and its trailing context |
| PatchTheorems.HeadersAreTruthful | pr_agent/algo/git_patch_processing.py:80-99 | for hunks with starts of at least 1 on both sides, empty sides included: the old side of a widened hunk is exactly the slice of the old file its printed header names, and its new side has the printed size, if and only if it is not so that widening in front is given up, as `AbandonsExactly` reads off the files, while old lines are left behind the hunk to append; without the new file the new size is right exactly when both starts leave room for the same leading lines |
| PatchPlacement.AbandonsExactly | pr_agent/algo/git_patch_processing.py:101-155 | for every configuration, all files and every header: widening is given up in front of a valid hunk if and only if the new file is supplied, no section line shared by both files is found, and the lines above the hunk differ in number or in the last one; when some line is put in front is read off the files too |
| PatchPlacement.AbandonsInside | pr_agent/algo/git_patch_processing.py:101-155 | for starts of at least 1 that is: the two starts leave room for different numbers of lines, or there is room and the lines right above the hunk differ |
| PatchTheorems.PlacedFacts | pr_agent/algo/git_patch_processing.py:131-185 | for the same hunks, however the leading context was chosen, the printed header accounts for it, and it is the file's own text in the old and, when supplied, the new file |
| PatchTheorems.FittingHunkIsValid | pr_agent/algo/git_patch_processing.py:190-214 | the first context line of a hunk that fits the files always passes the comparison with the old file |
| PatchContext.ValidExactly | pr_agent/algo/git_patch_processing.py:190-214 | a hunk fails the comparison with the old file exactly when its first body line is context and differs, white space at both ends apart, from the line of the old file at its start, a start of 0 meaning the last line |
| PatchContext.StripIs | pr_agent/algo/git_patch_processing.py:203-208 | what is compared is each line without the white space at both ends, and nothing else taken off |
| PatchContext.MisfitsStay | pr_agent/algo/git_patch_processing.py:74-99 | such a hunk, and every hunk when no context is asked for, comes out as it went in |
| PatchContext.LeadIsExactly | pr_agent/algo/git_patch_processing.py:101-155 | the lines put in front of any other hunk are exactly these: with dynamic context, the old file from the first line holding the section text, if the new file agrees from there; otherwise the longest context that is the same in both files |
| PatchContext.SectionIsExactly | pr_agent/algo/git_patch_processing.py:107-165 | the printed header keeps its section text, except when a line put in front shows it |
| PatchTheorems.AbandonedHeaderIsWrong | pr_agent/algo/git_patch_processing.py:147-185 | the exception is real: after an insertion above it, a hunk near the top prints one old line and holds two |
| PatchTopOfFile.TopDeletionHeader | pr_agent/algo/git_patch_processing.py:80-99 | for a hunk printed with start 0 on the new side: the old side of the widened hunk is the slice its header names under the same condition on the files; the printed new size is right if and only if no line is put in front, none is left behind to append, and widening is off, given up in front, or asked for trailing lines |
| PatchTopOfFile.TopInsertionHeader | pr_agent/algo/git_patch_processing.py:80-99 | for a hunk printed with start 0 on the old side: everything but the last line of the old file is taken for its leading context, so the header is right about the old side if and only if widening is off, or given up in front with no more trailing lines asked for than the file has or the file empty, or not given up and those lines cover the file; the exact condition for the new size is given too |
| PatchExtension.ProcessPatchLines | pr_agent/algo/git_patch_processing.py:61-188 | the loop over patch lines produces the widened patch the theorems are about |
| PatchExtension.FindSection | pr_agent/algo/git_patch_processing.py:107-125 | the search stops at the first line holding the section text |
| PatchExtension.FindSharedSuffix | pr_agent/algo/git_patch_processing.py:131-152 | the search stops at the longest suffix both context blocks share |
| PatchExtension.PlaceHunk | pr_agent/algo/git_patch_processing.py:74-165 | the branches for dynamic context, shared suffix, reset and invalid hunk choose the placement the header theorems are about |
| PatchLineNumbers.NumbersAreTrue | pr_agent/algo/git_patch_processing.py:61-188 | widening any well-formed patch between two non-empty files, starts of 0 included, and numbering it prints only rows `n text` where `text` is line `n` of the new file, in every branch, if and only if the trailing lines of each hunk are the new file's lines with the numbers that follow its printed start |
| PatchLineNumbers.TrailAgreesInFiles | pr_agent/algo/git_patch_processing.py:76-82 | for starts of at least 1 the condition is read off the files: the old lines after the hunk's old side, as many as are appended, are the new lines after its new side |
| PatchLineNumbers.InsertionTrailAgrees | pr_agent/algo/git_patch_processing.py:76-82 | after an insertion followed by unchanged lines it holds only if no line is appended, or if the line the insertion follows and as many lines after it as are appended are all alike |
| PatchLineNumbers.SpacedNumbersAreTrue | pr_agent/algo/git_patch_processing.py:300-420 | that condition always holds for hunks with old and new lines that are more than the configured number of trailing lines apart |
| PatchLineNumbers.EmptySideTrailDisagrees | pr_agent/algo/git_patch_processing.py:76-82 | it can fail: after a hunk without old lines the trailing line is the one before it, printed under a wrong number |
| PatchLineNumbers.TopDeletionTrail | pr_agent/algo/git_patch_processing.py:76-82 | for a deletion of the first lines, printed with start 0, it holds if and only if there are no trailing lines or they are the whole, one-line new file |
| PatchLineNumbers.NumberJoined | pr_agent/algo/git_patch_processing.py:343-418 | numbering a whole patch prints the section of each hunk once, in order, although each is printed only when the next header arrives |
| PatchLineNumbers.SectionTrue | pr_agent/algo/git_patch_processing.py:300-420 | the numbered section of a hunk that stands where its header says holds only true rows |
| PatchSections.SectionIsBothSides | pr_agent/algo/git_patch_processing.py:300-420 | the section of a changed hunk between the two files is its header, its whole new side in order with the line numbers of the new file, and, exactly when it deletes a line, its whole old side in order; behind their marks these rows are the slices of the new and the old file the header names |
| PatchSections.SectionShows | pr_agent/algo/git_patch_processing.py:352-385 | every changed hunk, fitting or not, is printed so, its lines with their marks |
| PatchSections.WidenedSection | pr_agent/algo/git_patch_processing.py:61-188 | of a widened hunk the new and the old rows are the lines put in front, the side itself and the lines appended behind |
| PatchSections.PatchPrintsSections | pr_agent/algo/git_patch_processing.py:343-418 | numbering a patch prints exactly the hunks' sections, each right behind those before it |
| PatchStrays.NumbersAnything | pr_agent/algo/git_patch_processing.py:343-420 | a patch of any lines is numbered hunk by hunk from the lines read of each; lines in front of the first hunk are printed when a hunk follows, numbered from -1 |
| PatchStrays.ReadLinesAre | pr_agent/algo/git_patch_processing.py:351-358 | the lines read are exactly, in order, those that are no remark and stand in front of any line that looks like a hunk header and is none, but for a blank line that ends its hunk or stands right in front of such a line |
| PatchStrays.PrintedIs | pr_agent/algo/git_patch_processing.py:362-385 | of the lines read of a hunk nothing is printed when there are none, the title alone when none is added or deleted, and otherwise the numbered new rows and, when one is deleted, the old rows |
| PatchNumbering.DecoupleHunks | pr_agent/algo/git_patch_processing.py:300-420 | the loop with delayed emission prints the rows the numbering and the section theorems are about |
| PatchNumbering.PrintHunk | pr_agent/algo/git_patch_processing.py:352-385 | a collected hunk is printed as the section those theorems are about |
| PatchSelection.OmitPatch | pr_agent/algo/git_patch_processing.py:227-264 | of a patch with a file header in front, exactly the hunks that add a line survive, except that an added-file line of the header keeps the first hunk whatever it does |
| PatchSelection.OmitAfterHunkOnly | pr_agent/git_providers/diff_parsing.py:16-28 | once the file header is cut off, the hunks that add a line are exactly what survives |
| PatchSelection.SurvivorsKeepNumbers | pr_agent/algo/git_patch_processing.py:227-264 | dropping deletion-only hunks first leaves the numbered output of every surviving hunk unchanged |
| PatchNumbering.OmitDeletionHunks | pr_agent/algo/git_patch_processing.py:227-264 | the loop that holds a hunk back until it has seen an addition keeps the lines those lemmas are about |
| PatchNumbering.ToHunkOnlyPatch | pr_agent/git_providers/diff_parsing.py:16-28 | everything before the first hunk line is dropped, everything after kept; nothing is left when there is none |
| PatchSelection.SelectionIsFileSlice | pr_agent/algo/git_patch_processing.py:441-489 | selecting a right-side range that begins inside a hunk and dropping deleted lines and first characters is slicing the new file, up to the end of the range or of the hunk |
| PatchSides.PicksExactly | pr_agent/algo/git_patch_processing.py:455-483 | what a range selects in one hunk is exactly the lines, on the left side those that are not added and on the right side all, whose place, counted by the lines of that side in front of them, lies in the range, in order; a remark never |
| PatchSides.SelectsHunkByHunk | pr_agent/algo/git_patch_processing.py:441-483 | of a whole patch it is what the hunks select whose own lines on that side hold the first line asked for, whatever was read before |
| PatchSides.ShowsWholeHunks | pr_agent/algo/git_patch_processing.py:441-483 | the companion text is a blank line, the header and the whole body of exactly those hunks |
| PatchStrays.SelectsAnything | pr_agent/algo/git_patch_processing.py:441-483 | of a patch of any lines, on any side: a line that looks like a hunk header and is none cuts its hunk off, and lines in front of the first hunk are shown, and selected as if numbered from -1 |
| PatchSides.LeftSelectionIsFileSlice | pr_agent/algo/git_patch_processing.py:441-489 | selecting a left-side range that begins inside a hunk and dropping added lines and first characters is slicing the old file, up to the end of the range or of the hunk |
| PatchFallback.BranchesAgree | pr_agent/algo/utils.py:526-542 | for a range that begins inside a hunk: the patch fallback shows the lines the new file shows if and only if the range ends inside the hunk or the hunk ends the file, and the printed line that ends the selection is a deleted one or, with its mark, ends in no white space |
| PatchFallback.TrimTells | pr_agent/algo/git_patch_processing.py:487-489 | cutting the trailing white space of a selection leaves what is shown of it as it was if and only if its last line is a deleted one or ends in no white space |
| PatchFallback.TrimEndIsRStrip | pr_agent/algo/git_patch_processing.py:487-489 | trimming the selected lines is `rstrip` on the joined text, read as lines again |
| PatchNumbering.ExtractHunkLines | pr_agent/algo/git_patch_processing.py:423-485 | the selection loop produces, for either side, the selected lines and the companion hunk text the theorems here are about, before trailing white space is cut |
| PatchFallback.RelevantLines | pr_agent/algo/utils.py:516-542 | the new file is sliced when its text is there; otherwise the selection from the patch loses its trailing white space, its deleted lines and first characters, and a blank one shows nothing |
| PatchPositions.PositionsAreTrue | pr_agent/algo/utils.py:1450-1465 | for every well-formed patch, missing-newline remarks anywhere: a line of the new file that a hunk shows is found at the very patch line that shows it if and only if no remark stands before it in that hunk and no earlier hunk gives out its number |
| PatchPositions.SearchStopsAtTheFirst | pr_agent/algo/utils.py:1450-1465 | what is found for any number: nothing if no hunk gives it out; otherwise the first hunk that does answers, with its header for the number before its start, else with its line that has that many lines not starting with a minus sign before it |
| PatchPositions.UncoveredPositions | pr_agent/algo/utils.py:1450-1465 | a line that no hunk covers is found nowhere if and only if it does not stand just before a hunk and no hunk runs on to it, by one number for each remark in it |
| PatchPositions.PositionsWithoutRemarks | pr_agent/algo/utils.py:1450-1465 | without remarks a covered line is found in its own place, an uncovered line just before a hunk at that hunk's header, and no other line is found |
| PatchPositions.PreludeHidesFirstLines | pr_agent/algo/utils.py:1448-1465 | lines in front of the first hunk are counted from 0: as many first lines of the new file as there are such lines not starting with a minus sign are found among them, and every other line is looked for in the hunks |
| PatchPositions.RemarkShiftsPositions | pr_agent/algo/utils.py:1451-1465 | the exception is real: a remark after a deleted line is found in place of the added line after it |
| PatchPositions.FindPosition | pr_agent/algo/utils.py:1448-1465 | the loop stops where those theorems say |
| ReleaseTheorems.BootConverges | pr_agent/dashboard/ops.py:694-759 | crash after any single file operation of a boot, inside a removal or a checkout too, and boot again at any later time with the same image and source head: the second boot ends with the link and markers the first was to end with and succeeds or fails as it would have, unless the crash left the source head registered with Git but without its directory, or locked by an unfinished checkout; then it fails with the link and markers unchanged. So it ends as the uninterrupted boot if and only if that did not happen or the first boot could not succeed either |
| ReleaseTheorems.CrashRefuses | pr_agent/dashboard/ops.py:593-659 | the crash points that make the next checkout fail are exactly those between the removal of the source head's directory and of its registration, and those while `git worktree add` holds its lock; only the latter leave a lock |
| ReleaseTheorems.RefusalEnds | pr_agent/dashboard/ops.py:654-656 | a whole boot leaves a refused checkout refused if and only if it was locked: failing clears any other registration |
| ReleaseTheorems.ThirdBootConverges | pr_agent/dashboard/ops.py:593-759 | so the boot after a failed one ends with the link and markers the first was to end with, unless a lock is left, with which it fails again |
| ReleaseTheorems.RetryIsRefused | pr_agent/dashboard/ops.py:602-609 | the exception is real: a crash between removing the directory and `git worktree prune` makes the next boot fail where the interrupted one would have served |
| ReleaseTheorems.KilledAddSticks | pr_agent/dashboard/ops.py:650-656 | it happens: a first boot killed inside `git worktree add` leaves the source head locked, so that its checkout is refused |
| ReleaseTheorems.LockSticks | pr_agent/dashboard/ops.py:593-759 | with such a lock on the source head every boot fails with the link and markers unchanged, however many are tried and however they are interrupted |
| ReleaseTheorems.BootConvergesAfterCrashes | pr_agent/dashboard/ops.py:694-759 | the same after any number of boots in a row, each interrupted or refused at its own time and torn at its own place |
| ReleaseTheorems.PlanStaysOnCourse | pr_agent/dashboard/ops.py:700-757 | at every crash point before pruning the volume is sound, registrations included, a boot from it is after the same link and markers, and a checkout is still due only while no marker has changed |
| ReleaseTheorems.PruneStaysOnCourse | pr_agent/dashboard/ops.py:670-691 | at every crash point of pruning, inside a removal too, neither the serving nor the waiting release nor any mark is touched |
| ReleaseTheorems.PruneKeepsTheNewest | pr_agent/dashboard/ops.py:670-691 | pruning leaves every serving or waiting release and, of the others, exactly the newest |
| ReleaseTheorems.EnsurePrefix | pr_agent/dashboard/ops.py:635-659 | preparing a checkout touches no other release and no marker at any point, and leaves a finished one exactly when a finished one was there or Git can check the revision out and its registration does not refuse it |
| ReleaseDecisions.BootDecides | pr_agent/dashboard/ops.py:694-759 | what an uninterrupted boot leaves, case by case: a rebuilt image or an empty volume takes the source head when it can be had and has the image's dependencies, keeps the served release and makes the head wait when only those differ, and otherwise gives up with the marks unchanged; any other boot takes the waiting release exactly when it is there and has them |
| ReleaseDecisions.StageDecides | pr_agent/dashboard/ops.py:838-868 | a staged update makes a revision wait exactly when it is there or Git can check it out with nothing registered in its way; the served release stays |
| ReleaseDecisions.RebuildRequiredExactly | pr_agent/dashboard/ops.py:792-812 | a restart needs no rebuild exactly when the waiting release, or the served one when none waits, is there with readable dependencies equal to the image's |
| ReleaseDecisions.RestartDecides | pr_agent/dashboard/ops.py:557-585 | a queued restart that starts leaves the waiting release served and nothing waiting; one that is refused or stuck leaves the marks as they were; no directory changes |
| ReleaseDecisions.UpdateGoesLive | pr_agent/dashboard/ops.py:294-372 | from every safe state of a process that is up, a revision that can be had with the image's dependencies can be staged, prepared and restarted into; a restart that fails leaves it waiting and serves on |
| ReleaseDecisions.DiscardSweeps | pr_agent/dashboard/ops.py:593-609 | after a whole discard the directory is gone and exactly the registrations that are locked or still pointed at are left |
| ReleaseRuns.EveryRunIsSafe | pr_agent/dashboard/ops.py:294-372 | in every run of boots, staged updates, restarts, rollbacks, crashes and host changes from an empty volume: the link and the pending marker name releases with a completion marker, the pending marker and the build marker exist only with a link, and every move of the link is to a finished release whose dependencies match the image |
| ReleaseRuns.EveryRunRecovers | pr_agent/dashboard/ops.py:694-759 | from every state of every such run, however often the next boot is interrupted or refused: the boot after them ends as the first was to end, unless the source head's checkout is refused at that moment, when it fails with the link and markers unchanged |
| ReleaseRuns.StepIsSafe | pr_agent/dashboard/ops.py:294-372 | every event keeps that invariant and moves the link only so |
| ReleaseRuns.StepServesWhole | pr_agent/dashboard/ops.py:627-659 | after every event, at every crash point, the serving and the waiting release have all their files, unless the event prepares a release that an interrupted removal left with its completion marker; and an event that does so and finishes leaves that release serving or waiting |
| ReleaseRuns.EveryRunServesWhole | pr_agent/dashboard/ops.py:635-659 | a run that never prepares such a torn release serves and stages only whole ones |
| ReleaseRuns.TornByInterruptedPruning | pr_agent/dashboard/ops.py:593-691 | a release becomes torn only when a boot is interrupted while it prunes |
| ReleaseRuns.TornReleaseIsServed | pr_agent/dashboard/ops.py:635-659 | the exception is real: a release torn by interrupted pruning is booted by an image built from its revision |
| ReleaseRuns.FailedRestartRestores | pr_agent/dashboard/ops.py:342-372 | a restart that is refused, or whose marker cannot be removed, leaves the link and both markers exactly as they were |
| ReleaseRuns.RestartPrefix | pr_agent/dashboard/ops.py:557-585 | at every point of a restart the link names the old or the pending release and nothing else is disturbed |
| ReleaseRuns.BootMovesLinkSafely | pr_agent/dashboard/ops.py:724-757 | at every point of a boot the link is where it was or at a release whose dependencies match the image |
| Releases.ReleaseVolume.Perform | pr_agent/dashboard/ops.py:537-554 | each file operation changes exactly its part of the volume |
| Releases.ReleaseVolume.SwitchActiveRelease | pr_agent/dashboard/ops.py:537-554 | the switch is three file operations, clearing a stale temporary link first, and returns the old target |
| Releases.ReleaseVolume.ActivatePendingRelease | pr_agent/dashboard/ops.py:557-572 | the pending release is switched in and its marker removed; a marker that cannot be removed undoes the switch |
| Releases.ReleaseVolume.RollbackActivation | pr_agent/dashboard/ops.py:575-585 | the previous target is switched back and the marker written again |
| Releases.ReleaseVolume.ExecuteRestart | pr_agent/dashboard/ops.py:342-372 | the file operations of a queued restart, by how it goes, are the list the run theorems are about |
| Releases.ReleaseVolume.EnsureReleaseWorktree | pr_agent/dashboard/ops.py:635-659 | a finished checkout is reused; anything else is discarded, files first, and checked out again, and marked only when complete; a registration that refuses the checkout is discarded and nothing is prepared |
| Releases.ReleaseVolume.DiscardReleaseWorktree | pr_agent/dashboard/ops.py:593-609 | the files of a release go before its directory does, then its registration, then every registration whose directory is gone; locked ones stay |
| Releases.ReleaseVolume.AddWorktree | pr_agent/dashboard/ops.py:650-656 | a checkout is registered and locked before its directory exists, unlocked when its files are there, and cleaned up after when it fails |
| Releases.ReleaseVolume.StageRelease | pr_agent/dashboard/ops.py:838-868 | a fetched revision is checked out and named as pending; the serving release is untouched |
| Releases.ReleaseVolume.PruneReleases | pr_agent/dashboard/ops.py:670-691 | the candidates are sorted newest first and removed beyond the retention |
| Releases.ReleaseVolume.ReconcileBootRelease | pr_agent/dashboard/ops.py:694-759 | the launcher performs the decided operations and then prunes, or stops without booting |
| PrChunks.ChunkingPromises | pr_agent/algo/pr_processing.py:538-614 | the chunks are next-fit, their concatenation is a prefix of the eligible files in order, there are at most `max_calls` of them, and nothing is cut off when fewer come out; none is empty, each weighs at most the budget, and each was closed only because the next file did not fit it |
| PrChunks.NextFitIsUnique | pr_agent/algo/pr_processing.py:538-614 | those properties determine the chunks: there is only one next-fit chunking of a list of files |
| PrChunks.PairsOverflow | pr_agent/algo/pr_processing.py:580-600 | k chunks imply a total weight above floor(k/2) budgets |
| PrChunks.NextFitIsTwoCompetitive | pr_agent/algo/pr_processing.py:538-614 | next-fit needs fewer than twice the prompts of any way to share the same files out within the budget |
| PrChunks.EligibleFits | pr_agent/algo/pr_processing.py:547-588 | every text that is packed is non-empty and fits a prompt on its own, under every policy for large patches |
| PrChunks.EveryPatchIsEligible | pr_agent/algo/pr_processing.py:547-588 | every file that has such a text, and no other, is packed with it, once and in the files' order |
| PrChunks.PackedIsContributed | pr_agent/algo/pr_processing.py:538-614 | of the chunks against the files themselves: what is packed is what its file contributes, in the files' order, and a file with something to contribute is missing only when every call is used up, and then it comes after all packed ones |
| PrChunks.PackIsNextFit | pr_agent/algo/pr_processing.py:590-612 | packing with an open chunk keeps all of this |
| PrChunks.PackIntoChunks | pr_agent/algo/pr_processing.py:538-614 | the loop returns the first `max_calls` chunks of the one next-fit chunking |
| PrChunks.PreparePatch | pr_agent/algo/pr_processing.py:559-588 | a file comes in with its patch as it is when that is non-empty and within the budget, with its clipped text when the patch is too large, the policy is to clip and that text is non-empty and fits, and otherwise not at all |
| PrBatches.EveryFileOnce | pr_agent/algo/pr_processing.py:274-303 | every file with a patch is in exactly one prompt or in the final remainder, never in two and never in both |
| PrBatches.BatchesConserve | pr_agent/algo/pr_processing.py:274-303 | over all prompts each file asked for is placed once, left over once, or had an empty patch |
| PrBatches.BatchesAreMaximal | pr_agent/algo/pr_processing.py:274-303 | a file placed in a later prompt or left over at the end did not fit beside what any earlier prompt holds, its wrappers counted in full; there are at most max(1, max_ai_calls - 1) prompts, and only the first can be empty |
| PrBatches.BatchesAreBounded | pr_agent/algo/pr_processing.py:306-345 | in a prompt that holds a file the fixed prompt and the counted wrappers of all its files together leave the hard margin free, when a wrapper costs at most the gap between the two margins |
| PrBatches.StuckForGood | pr_agent/algo/pr_processing.py:289-301 | once a prompt gets nothing, no later one does |
| PrBatches.EnoughCallsExhaust | pr_agent/algo/pr_processing.py:289-301 | with calls enough, only files too large for a prompt of their own are left over |
| PrBatches.EveryCallIsUsed | pr_agent/algo/pr_processing.py:289-301 | when a file that would fit a prompt of its own is left over at the end, every allowed call was used |
| PrBatches.FillConserves | pr_agent/algo/pr_processing.py:306-345 | one prompt sorts the files asked for into placed, left and vanished, each exactly once |
| PrBatches.TotalIsCost | pr_agent/algo/pr_processing.py:306-345 | the total reported is the fixed prompt and the counted wrapper of every file placed, each once, and nothing else |
| PrBatches.FillIsGreedy | pr_agent/algo/pr_processing.py:311-342 | one prompt is filled greedily: each file asked for, in the dictionary's order, is left exactly when the files placed before it leave less than the hard margin or not the soft margin beside it, and otherwise placed, or dropped when its patch is empty |
| PrBatches.EveryPromptIsGreedy | pr_agent/algo/pr_processing.py:274-303 | so is every prompt of a run, each from what the one before it left |
| PrBatches.FillIsMaximal | pr_agent/algo/pr_processing.py:320-334 | nothing that was left would have fitted beside the fixed prompt and the counted wrappers of what was placed |
| PrBatches.LeftIsChosen | pr_agent/algo/pr_processing.py:306-345 | what one prompt leaves is what the next is asked for, in the same order |
| PrBatches.GenerateFullPatch | pr_agent/algo/pr_processing.py:306-345 | the filling loop places, leaves and drops the files those lemmas are about, and reports their total |
| PrBatches.GenerateCompressedDiff | pr_agent/algo/pr_processing.py:274-303 | the batch loop repeats it on what is left, keeping the first prompt and every later one that got a file |
| ReviewStore.StepKeeps | pr_agent/dashboard/storage.py:392-410 | no transaction changes a terminal row or reuses an id, and request ids stay unique |
| ReviewStore.LeavesRunningOnce | pr_agent/dashboard/storage.py:772-859 | in every interleaving a review leaves RUNNING at most once, and a terminal row afterwards stays as it is until it is deleted |
| ReviewStore.RunKeeps | pr_agent/dashboard/storage.py:542-560 | the same over any sequence of transactions of any workers |
| ReviewStore.RunningRowDisappears | pr_agent/dashboard/storage.py:392-410 | a running row disappears if and only if one maintenance pass finds it overdue and it is past retention, or the newer terminal rows and the running ones fill the cap |
| ReviewStore.RunningRowCanVanish | pr_agent/dashboard/storage.py:392-410 | it happens: a review can go from RUNNING to deleted without ever being seen as FAILED |
| ReviewStore.FindingsComeWithCompletion | pr_agent/dashboard/storage.py:928-966 | a row becomes COMPLETED only by the finish of its own request while it runs, and then holds the whole finding list and the verdict in that same step |
| ReviewStore.HeartbeatKeepsAlive | pr_agent/dashboard/storage.py:772-785 | a heartbeat keeps its review running through any maintenance within the stale window |
| ReviewStore.CancelFlagsOnlyRunning | pr_agent/dashboard/storage.py:787-806 | cancelling flags the row exactly while it runs, and changes nothing else |
| ReviewStore.RequestWritesItsRow | pr_agent/dashboard/storage.py:772-859 | a heartbeat, a finish and a close change exactly the running row of their request, in exactly the columns they name, and nothing else |
| ReviewStore.CreateAddsOneRow | pr_agent/dashboard/storage.py:755-770 | a review is created running, fresh and without findings, under an unused id, unless some review has its request id; then nothing changes |
| ReviewStore.MaintenanceCaps | pr_agent/dashboard/storage.py:392-410 | after maintenance there are at most max(cap, running) rows, and exactly the running reviews that were not stale still run |
| ReviewStore.MaintainsExactly | pr_agent/dashboard/storage.py:392-410 | maintenance fails exactly the overdue rows it keeps, keeps every other running row as it is, and of the terminal and overdue rows keeps exactly those within retention with few enough newer ones, what the running rows leave of the cap |
| ReviewStore.NewestCount | pr_agent/dashboard/storage.py:404-408 | keeping the newest n of a set of ids keeps min(n, size) of them |
| DashboardStorage.FinishIsHonestUnlessOvertaken | pr_agent/dashboard/storage.py:928-966 | `finish_review` reports a completion it did not make if and only if one of its updates was rolled back by a lock and another worker had closed the review by the time it committed |
| DashboardStorage.FinishCanMisreport | pr_agent/dashboard/storage.py:928-966 | it happens: the review goes stale between two attempts, and the call reports success for a row that is FAILED |
| DashboardStorage.CloseIsHonest | pr_agent/dashboard/storage.py:829-859 | a write whose flag every attempt sets afresh, such as FAILED or SKIPPED, reports success exactly when it made the change itself and its attempt came through |
| DashboardStorage.CancelIsHonest | pr_agent/dashboard/storage.py:787-806 | `cancel_review` returns true exactly when an attempt landed and found the review running, and then the running row is flagged |
| DashboardStorage.CreateIsHonest | pr_agent/dashboard/storage.py:755-770 | `create_review` returns its request id exactly when an attempt landed and no attempt found the id taken, and then a new running row has that id |
| DashboardStorage.LandingIs | pr_agent/dashboard/storage.py:542-560 | an attempt is the one that lands exactly when it commits and every earlier one lost to a lock |
| DashboardStorage.EveryEventIsTrue | pr_agent/dashboard/audit.py:226-251 | in every interleaving every terminal event names the persisted status and verdict of its row for as long as the row exists, whatever the call that led to it reported |
| DashboardStorage.StepStaysTruthful | pr_agent/dashboard/audit.py:241-249 | reading the row back before announcing keeps that |
| DashboardStorage.Database.FinishReview | pr_agent/dashboard/storage.py:910-966 | the retry loop with its sticky flag, over any interference between attempts |
| DashboardStorage.Database.FinishWithoutIssues | pr_agent/dashboard/storage.py:829-859 | the retry loop whose flag every attempt sets afresh |
| DashboardStorage.Database.Transact | pr_agent/dashboard/storage.py:542-560 | the retry loop of a write whose flag every attempt sets afresh |
| DashboardStorage.Database.CancelReview | pr_agent/dashboard/storage.py:787-806 | a cancel request goes through that loop |
| DashboardStorage.Database.TouchReview | pr_agent/dashboard/storage.py:772-785 | a heartbeat goes through that loop with a single attempt |
| DashboardStorage.Database.CreateReview | pr_agent/dashboard/storage.py:755-770 | the retried insert, which a taken request id ends |
| DashboardStorage.Database.MaintainReviewRows | pr_agent/dashboard/storage.py:392-410 | the statements of a maintenance transaction, in order, have the effect the life-cycle theorems are about |
| DashboardStorage.Database.RecordTerminalEvent | pr_agent/dashboard/audit.py:226-251 | an event is appended only with the status and verdict just read from a row of that request, and nothing is appended when no row has the announced status |
| EventStream.ReaderIsUpToDate | pr_agent/dashboard/storage.py:436-475 | in every interleaving of a reader with appends and maintenance, for every page limit and with connections lost inside a page: the ids sent are strictly increasing and everything still stored behind the cursor was sent |
| EventStream.OnlyDeletedEventsAreMissed | pr_agent/dashboard/storage.py:463-475 | an event the reader passed without being sent it was deleted before the reader reached it |
| EventStream.PagesJoinUp | pr_agent/dashboard/storage.py:463-475 | reading page after page yields every event after the cursor once and in order, whatever the limit |
| EventStream.PageIsTheOldest | pr_agent/dashboard/storage.py:463-475 | a page is the oldest events after the cursor, a negative one being the start, in order, as many as it asks for, one to 500, if there are so many |
| EventStream.NextEventIsAhead | pr_agent/dashboard/storage.py:463-470 | the next event will be listed if and only if the saved cursor is not ahead of the stream |
| EventStream.EventStays | pr_agent/dashboard/storage.py:412-421 | an event stays exactly while it is within retention and few enough retained ones follow it |
| EventStream.MaintainKeepsValid | pr_agent/dashboard/storage.py:412-421 | maintenance keeps the order, adds nothing and respects the row cap |
| EventStream.EventBus.AddEvent | pr_agent/dashboard/storage.py:436-461 | an appended event gets an id never used before and leaves the stored ones alone |
| EventStream.EventBus.MaintainEventRows | pr_agent/dashboard/storage.py:412-421 | the two deletions leave the rows those lemmas are about |
| EventStream.EventBus.ListEvents | pr_agent/dashboard/storage.py:463-475 | a page is the first events after the cursor, with the cursor clamped at zero and the limit to 1..500 |
| LoginLimiter.EveryWindowHolds | pr_agent/dashboard/storage.py:694-732 | whatever the times of the calls and the order they land in: between two successes of a key every closed window holds at most `max_attempts` recorded failures, all through a run, if and only if no failure is recorded where the rows left, dropped by the cap and purged already fill a window around it |
| LoginLimiter.EveryWindowHoldsInOrder | pr_agent/dashboard/storage.py:694-732 | for calls that land in the order of their times every window holds if and only if no failure was recorded where an earned lock-out was missed |
| LoginLimiter.LateCallsShortenTheWindow | pr_agent/dashboard/storage.py:701-716 | for calls that land at most a delay after a later-dated one, and with room in the table, every closed window shorter by that delay holds at most `max_attempts` recorded failures |
| LoginLimiter.LateCallOverfills | pr_agent/servers/dashboard_api.py:405-408 | the exception is real: the time is read before the write lock is had, so a call of 10 that lands after one of 10.5, which purged the failure at 0, is recorded as the third failure in the ten seconds from 0 |
| LoginLimiter.InOrderOverfills | pr_agent/dashboard/storage.py:708-716 | a call that is not late overfills a window exactly when it is a failure whose earned lock-out is missed |
| LoginLimiter.DecisionIsTheHistorys | pr_agent/dashboard/storage.py:708-716 | whatever the times of the calls: a lock-out is always earned by failures in the full history; an earned one is missed if and only if so many of the key's failures inside the window were dropped by the row cap or purged by later-dated calls that the rest stay below the limit; a call that is not late finds none purged, and none dropped once the last drop is older than the window |
| LoginLimiter.AdvanceTracks | pr_agent/dashboard/storage.py:701-732 | no row is lost track of: after every call the table, the rows dropped by the cap and the rows purged are together exactly the failures since their keys' last successes, and every purged one is older than the window of the latest call |
| LoginLimiter.TableIsCapped | pr_agent/dashboard/storage.py:720-729 | after a recorded failure the table is within its cap |
| LoginLimiter.VerifyIs | pr_agent/dashboard/storage.py:701-732 | one transaction purges what is older than the window, locks the key out when enough of its failures are left, and otherwise lets the password decide: the key's rows go, or one row comes and the oldest make room |
| LoginLimiter.FromIs | pr_agent/dashboard/storage.py:704-707 | purging keeps exactly the rows from the cut-off on, each as often as it is there |
| LoginLimiter.DropsTheOldest | pr_agent/dashboard/storage.py:719-730 | what the row cap drops is no newer than anything it keeps |
| LoginFlood.CapForgets | pr_agent/dashboard/storage.py:720-729 | for every window, limit and cap: failures of one key up to the limit and then one each of as many other keys as the table has room for make the next earned lock-out be missed |
| LoginRetries.LoginAttempts.VerifyLoginAttempt | pr_agent/dashboard/storage.py:694-732 | the retry loop over the transaction, whose result keeps what a rolled-back attempt wrote into it |
| LoginRetries.LoginAttempts.Transact | pr_agent/dashboard/storage.py:701-732 | the transaction purges, counts, and records or clears as the history theorems say |
| LoginRetries.AnswerIsRight | pr_agent/servers/dashboard_api.py:409-416 | the login route answers with the committed decision if and only if that is a lock-out or no attempt rolled back before it had decided on one, and that storage is unavailable exactly when no attempt committed |
| LoginRetries.RetriesLeave | pr_agent/dashboard/storage.py:542-560 | the table afterwards is what the attempt that stays made of the rows it found, and otherwise what the last attempt found; a reported success carries the failure count of the attempt that committed |
| LoginRetries.LoginIsMisreported | pr_agent/dashboard/storage.py:697-732 | the exception is real: the right password is authenticated by a second attempt and its failures cleared, and the answer is that there were too many attempts |
| TextTruncation.TruncateIsExact | pr_agent/dashboard/storage.py:192-203 | the result never exceeds the limit; it is the text itself when that fits, otherwise the longest character prefix that fits, with an ellipsis when there is room for one |
| TextTruncation.DecodingACutIsLongest | pr_agent/dashboard/storage.py:199-203 | cutting UTF-8 anywhere and dropping what does not decode leaves the longest prefix that fits |
| TextTruncation.DecodeUndoesEncode | pr_agent/dashboard/storage.py:196-203 | decoding undoes encoding for every text |
| TextTruncation.LongestIsUnique | pr_agent/dashboard/storage.py:199-203 | there is only one longest prefix that fits |
| FindingBounds.BoundedKeepsBounds | pr_agent/dashboard/storage.py:206-230 | at most thirty findings are kept, their text totals at most the limit, and each is one of the findings given, in order, with its fields cut to their own limits and nothing else changed |
| FindingBounds.SmallFindingsSurvive | pr_agent/dashboard/storage.py:206-230 | nothing is lost when at most thirty findings are given and everything is within its limits |
| FindingBounds.NothingIsWasted | pr_agent/dashboard/storage.py:206-230 | findings are kept in order until thirty are kept or the budget is spent, each text as long as its own limit and what is left of the budget allow |
| FindingBounds.BoundReviewIssues | pr_agent/dashboard/storage.py:206-230 | the loop keeps the findings those lemmas are about |
| FindingBounds.BoundFinding | pr_agent/dashboard/storage.py:225-229 | the fields of one finding are charged to the running remainder, which never goes below zero |
| RelatedFiles.RenderedFits | pr_agent/algo/related_files.py:359-406 | what is rendered is nothing, or a text within both the line and the token limit |
| RelatedPasses.RendersExactly | pr_agent/algo/related_files.py:388-406 | the files rendered whole are exactly those that fit, by lines and tokens, beside the whole ones in front of them; then every other file gets the best prefix beside all of those and the prefixes before it, or none |
| RelatedFiles.RenderedDecodes | pr_agent/algo/related_files.py:359-406 | a parser that reads each block up to the first line equal to its fence recovers exactly the rendered blocks, each the whole of a file or a proper prefix of it and the marker, for every path the path filter admits |
| RelatedText.RenderedTextDecodes | pr_agent/algo/related_files.py:374-375 | the same for any fenced blocks: paths are unescaped and bodies come back line for line |
| RelatedText.UnescapeUndoesEscape | pr_agent/algo/related_files.py:343-345 | escaping a path loses nothing |
| RelatedText.SplitUndoesJoin | pr_agent/algo/related_files.py:374-382 | joining rows with line feeds and splitting the text at them gives the rows back |
| RelatedText.SplitLinesRead | pr_agent/algo/related_files.py:378-393 | the lines of a text and the breaks between them are the text again; no line holds a break, a carriage return and line feed count as one, and a final break opens no line |
| RelatedFiles.FenceIsShortest | pr_agent/algo/related_files.py:329-333 | the fence is the shortest run of at least five backticks the content does not contain, so no line of it can close its block |
| RelatedFiles.FenceFor | pr_agent/algo/related_files.py:329-333 | widening the fence ends, because a text contains no fence longer than itself |
| RelatedFiles.LargestPrefixThatFits | pr_agent/algo/related_files.py:336-356 | the result fits; when fitting is downward closed it is the longest prefix that does, and nothing only when none does |
| RelatedFiles.LineLimitIsDownwardClosed | pr_agent/algo/related_files.py:377-386 | with only a line limit fitting is downward closed, so the prefix is always the longest, whatever wider line breaks a path holds |
| RelatedFiles.CandidatesThatFit | pr_agent/algo/related_files.py:255-293 | the candidate list is shortened to a prefix that fits the prompt, the longest when fitting is monotone |
| RelatedFiles.PlaceWholeFiles | pr_agent/algo/related_files.py:391-398 | the first pass places, in order, every file that fits whole beside those before it |
| RelatedFiles.PlaceCutFiles | pr_agent/algo/related_files.py:400-404 | the second pass gives each file set aside the best prefix the leftover budget allows, and never takes from those already placed |
| RelatedFiles.Render | pr_agent/algo/related_files.py:388-406 | first every file that fits whole goes in, in order, then each of the others gets a prefix of what is left of the budget |
| CommandTokenizer.SplitUndoesPrint | pr_agent/agent/pr_agent.py:51-132 | any list of texts, empty ones included, and of settings with plain keys, survives being printed in escaped double quotes and split again; exactly the setting values are flagged as quoted |
| CommandTokenizer.FailuresAreIncomplete | pr_agent/agent/pr_agent.py:89-131 | splitting fails only on an open quote or an escaping last backslash, and completing the command makes it succeed |
| CommandWords.SplitReadsWords | pr_agent/agent/pr_agent.py:51-132 | any words of bare, backslash-escaped, single-quoted and double-quoted pieces, however spaced, are split into what they mean: single quotes keep every character, a backslash outside quotes keeps the next, in double quotes it drops out only before a quote, a backslash, a dollar, a backtick or a line feed, an apostrophe inside a word stands for itself |
| CommandWords.SplitIsReading | pr_agent/agent/pr_agent.py:51-132 | a command splits if and only if it is laid out as such words, and its tokens are then what its words mean, however it is read |
| CommandWords.QuotedMeans | pr_agent/agent/pr_agent.py:97-104 | a token counts as quoted exactly when some quote opens in it behind a bare equals sign |
| CommandTokenizer.PrepareUndoesPrint | pr_agent/agent/pr_agent.py:135-156 | a printed command is prepared to its action and exactly the printed arguments, setting values as JSON strings |
| CommandWords.PrepareDelivers | pr_agent/agent/pr_agent.py:135-156 | of any laid out command the first word is the action and every other is delivered in order, a quoted setting with its value as a JSON string and everything else as it means |
| CommandTokenizer.FeedConcat | pr_agent/agent/pr_agent.py:81-127 | reading a command in two pieces is reading it whole |
| CommandTokenizer.SplitCommand | pr_agent/agent/pr_agent.py:51-132 | the character loop returns the tokens, or the failure, those lemmas and the word theorems are about |
| CommandTokenizer.PrepareCommand | pr_agent/agent/pr_agent.py:135-154 | quoted settings are rewritten, every other argument is passed on, nothing for an empty command |
| ConfigEngine.EveryRunIsSerialAndFresh | pr_agent/dashboard/config_engine.py:260-322 | in every interleaving of workers the file is the fold of the changes in the order they took the lock; a worker whose mark is the file's signature has, for a managed file, exactly the file over the defaults, and otherwise the file's value for each path of it and the default for every other, but for paths that strayed in through a failed reload or were unset by an earlier one |
| ConfigEngine.StepIsSerial | pr_agent/dashboard/config_engine.py:260-304 | no event loses or reorders a change |
| ConfigEngine.StepHolds | pr_agent/dashboard/config_engine.py:426-520 | every event keeps the marks truthful and the books on strayed and unset paths exact |
| ConfigEngine.SavedValueStays | pr_agent/dashboard/config_engine.py:260-304 | no update is lost: what a save set, the secret included, stays until a later change sets the same path |
| ConfigEngine.EditSetsItsFields | pr_agent/dashboard/config_engine.py:345-360 | a save sets exactly its fields, except a secret that is empty or comes back masked; that and every other path stay as they were |
| ConfigEngine.RefusedExactly | pr_agent/dashboard/config_engine.py:258-281 | a save writes nothing exactly when no field of it asks for a change, a masked or empty secret asking for none, or a field that does is controlled by the environment |
| ConfigEngine.SavesSpareTheEnvironment | pr_agent/dashboard/config_engine.py:274-282 | a save that goes through leaves what the environment controls as it was in the file |
| ConfigEngine.WriteGoesThrough | pr_agent/dashboard/config_engine.py:260-307 | a write nobody disturbs takes six steps: the file is the edited one, the worker shows it and holds its signature, the lock is free again and no other worker changed |
| ConfigEngine.OnlyReplacingWrites | pr_agent/dashboard/config_engine.py:260-304 | only the replacement of a write that is not refused, or an edit from outside, changes the file |
| ConfigEngine.OutsideEditIsLost | pr_agent/dashboard/config_engine.py:260-288 | the lock is needed: a path changed from outside it between a writer's read and its replacement is back at the old value, and the file is no fold of the changes |
| ConfigEngine.OutsideEditMisleadsAWrite | pr_agent/dashboard/config_engine.py:288-304 | a write reads the content before the signature, so an edit from outside between the two leaves old settings under the new mark |
| ConfigEngine.StrayPathSurvives | pr_agent/dashboard/config_engine.py:449-462 | the exception is real: a path set by a failed reload and not loaded since outlives its removal from the file |
| ConfigEngine.PathOutlives | pr_agent/dashboard/config_engine.py:449-462 | after a finished reload of a document without a path, the path is still set if and only if it strayed in, or is a default that no reload has unset and the last document did not set |
| ConfigEngine.StrayMeans | pr_agent/dashboard/config_engine.py:446-462 | a path is stray if and only if a failed reload set it while it was not loaded and no document holding it was applied since |
| ConfigEngine.ErasedMeans | pr_agent/dashboard/config_engine.py:446-462 | a path counts as unset if and only if a finished or failed reload unset it and none has set it since |
| ConfigEngine.RemovedPathStays | pr_agent/dashboard/config_engine.py:426-462 | in terms of how the reloads of a new engine went alone: after a finished reload of a document without a path, the path is still set if and only if a failed reload set it unloaded and no document holding it was applied since, or it is a default that no reload unset for good and the last document did not set |
| ConfigEngine.ReloadShows | pr_agent/dashboard/config_engine.py:426-462 | a finished hot reload shows exactly the document it applied over the defaults, but for strayed and unset paths |
| ConfigEngine.UnsettingComesFirst | pr_agent/dashboard/config_engine.py:446-462 | a failed reload that had begun to set had unset every vanished path first |
| ConfigEngine.WorkerEngine.HotReload | pr_agent/dashboard/config_engine.py:426-462 | unsetting what vanished and setting leaf by leaf, with any call into the settings raising, gives the finished or the broken reload of the transition system |
| ConfigEngine.WorkerEngine.ReloadIfChanged | pr_agent/dashboard/config_engine.py:504-520 | a changed signature and a readable document are applied and marked; a reload that raises keeps the old mark; anything else leaves the worker as it was |
| RepoContextCache.HitsAreRight | pr_agent/algo/repo_context.py:32-43 | after any run a hit returns the value last stored for the key, and never one that has expired |
| RepoContextCache.EveryRunAgrees | pr_agent/algo/repo_context.py:21-52 | the cache only holds what a map that never evicts would, and never more than its size |
| RepoContextCache.RecentEntriesStay | pr_agent/algo/repo_context.py:32-52 | an entry is still hit while it has not expired and fewer than `max_size` distinct other keys were stored or hit since |
| RepoContextCache.TouchedIsInFront | pr_agent/algo/repo_context.py:42-48 | storing or hitting an entry puts it behind no other key |
| RepoContextCache.Cache.Get | pr_agent/algo/repo_context.py:32-43 | a miss, an expired entry and a hit leave the entries in the recency order those lemmas are about |
| RepoContextCache.Cache.Set | pr_agent/algo/repo_context.py:45-52 | the stored entry moves to the end and the oldest are popped until the size fits |
| InlineCommentStore.LazyAgreesWithEager | pr_agent/algo/inline_comment_dedup.py:214-260 | whatever happens from the first load on, the lazy store answers every lookup as one that listed the comments at construction, if and only if nothing released was added back before that load |
| InlineCommentStore.AddedBackMeans | pr_agent/algo/inline_comment_dedup.py:247-260 | a fingerprint counts as added back exactly when it was added after its own release with no release of anything since |
| InlineCommentStore.SeenMeans | pr_agent/algo/inline_comment_dedup.py:214-260 | after any operations the eager store knows exactly the fingerprints that were listed or added and not released, alone or with an earlier release, since |
| InlineCommentStore.LazyForgets | pr_agent/algo/inline_comment_dedup.py:221-236 | a fingerprint added back is seen by the eager store and not by the lazy one |
| InlineCommentStore.ReleaseReunites | pr_agent/algo/inline_comment_dedup.py:254-260 | the next release makes the two stores the same again |
| InlineCommentStore.FirstLoad | pr_agent/algo/inline_comment_dedup.py:221-236 | at its first load the lazy store lacks exactly what was added back |
| InlineCommentStore.Store.LoadStore | pr_agent/algo/inline_comment_dedup.py:221-236 | a listing that fails keeps what it yielded and still counts as loaded |
| InlineCommentStore.Store.SeenBefore | pr_agent/algo/inline_comment_dedup.py:242-245 | a lookup loads first, and nothing is never seen |
| InlineCommentStore.Store.AddFingerprint | pr_agent/algo/inline_comment_dedup.py:247-249 | a posted fingerprint is remembered without listing anything, even one released before |
| InlineCommentStore.Store.ReleaseFingerprints | pr_agent/algo/inline_comment_dedup.py:254-260 | everything released so far is forgotten, not only what is released now |
| InlineMarkers.MarkersSurvive | pr_agent/algo/inline_comment_dedup.py:130-152 | whatever the body and the limit, every appended marker is found again with those the clipped body had, and the text stays within a limit the markers alone fit |
| InlineMarkers.ClipsNoMore | pr_agent/algo/inline_comment_dedup.py:130-134 | no more of the body is given up than the limit takes, and nothing without one |
| InlineMarkers.StripUndoesAppend | pr_agent/algo/inline_comment_dedup.py:71-78 | stripping a marked body gives the stripped original and line breaks |
| InlineMarkers.ScansSplit | pr_agent/algo/inline_comment_dedup.py:62-68 | searching and stripping never reach across a line break |
| InlineMarkers.FingerprintsAreThoseStanding | pr_agent/algo/inline_comment_dedup.py:62-68 | the fingerprints of a body are exactly the twelve hexadecimal digits of the well-formed markers, of the four kinds, standing anywhere in it |
| InlineMarkers.RemovesLeftmost | pr_agent/algo/inline_comment_dedup.py:71-78 | stripping takes the leftmost marker out and goes on behind it; without a marker nothing changes |

## Left out

- Hosted providers, HTTP, SSH and Git processes, language-model calls, probes and log handling: effects over systems that are not visible; Git's answers in the release model are truthful parameters.
- Printing and parsing of header lines, joining lines into text, trailing-space trimming of numbered and of shown hunk text, and encodings of file contents: patches are lists of lines with parsed headers.
- `extend_patch` and `handle_patch_deletions` around the loops: skipping by file name, decoding and error handling only choose whether the modelled loops run.
- `parse_unified_diff` and the `unidiff` library: the hunks of `reconstruct_base_file` arrive parsed; its trailing-newline handling is not modelled.
- The fuzzy text search of `find_line_number_of_relevant_line_in_file`: it rests on a similarity ratio of the standard library.
- The early return of `get_pr_multi_diffs` and `get_pr_diff` when the whole diff fits, sorting of files by language and size, and the lists of added, modified and deleted files: they add no packing decision.
- PrChunks.ChunkingPromises: weights are sums of counted patches, as in the code; the token count of the joined text is not bounded, because counting is arbitrary.
- PrBatches.BatchesAreBounded: assumes that a wrapper costs at most the gap between the two margins, without which the total has no bound.
- Token counting, clipping, masking, JSON encoding and hashing are arbitrary functions.
- The configuration link inside a release, temporary names of marker files, file permissions and flushing, and a code path that is not a link: they do not take part in choosing what is served.
- ReleaseRuns.StepIsSafe: the image stays the same while a process is up.
- ReleaseRuns.TornByInterruptedPruning: a removal that stops short without a crash, its errors being ignored, is not modelled.
- Usage, metadata and timing columns of reviews, audit rows, sessions and passwords, `add_review_issues` (not called by the program) and payload truncation of markdown: they do not take part in the life cycle.
- ReviewStore.LeavesRunningOnce: rows are compared in the modelled columns; usage and metadata may still be filled in later.
- DashboardStorage.FinishIsHonestUnlessOvertaken: how an attempt ends is a parameter, and a commit followed by a later failure is reported as no success.
- LoginRetries.AnswerIsRight: how an attempt ends is a parameter; creating the session after a success is not modelled.
- EventStream.ReaderIsUpToDate: a reader starts with a cursor that is not ahead of the stream; `NextEventIsAhead` says what happens otherwise.
- Lone surrogates in text, on which encoding raises in the source language.
- RelatedFiles.RenderedDecodes: paths hold no line feed, which the path filter sees to, and neither does the introduction.
- Selection of related files by the model, path and credential heuristics, and rendering of instruction files: pattern tables and presentation.
- ConfigEngine.EveryRunIsSerialAndFresh: an engine does one write or reload at a time, each call into the settings takes full effect or none, settings match the file when the engine is constructed, signatures differ between versions, and nobody replaces the file while a writer holds the lock; the last is shown to be needed.
- Validation of configuration fields, backups, auth-state synchronisation and crash durability of the replacement.
- InlineCommentStore.LazyAgreesWithEager: both stores are given the same existing comments.
- Body and code fingerprints, which are hashes of regex-normalised text.
- `RepoContextCache` across threads, and the two-level lookup around it.
