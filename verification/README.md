# A verified model of the upstream porting toolchain

The fork keeps up with its upstream through a set of scripts: they cut a range of upstream commits into
reviewable waves, try every changed file as a three-way merge under the fork's names, write the clean results
into the checkout, and record what was decided in a ledger. This project models the logic of those scripts, and
the one-slot configuration hand-off of `foxxycode serve`, and proves what they promise. Git, the file system and
the regex, YAML and UTF-8 machinery appear only as parameters or as named hypotheses.

`dafny verify dfyconfig.toml` checks everything.

## How it is organised

| area | modules | source |
|---|---|---|
| commit graphs and waves | `History`, `WaveOrder`, `WaveCuts`, `Waves`, `Accounting` | `scripts/upstream_wave.py`, `scripts/upstream.py` |
| names and text | `Text`, `Branding`, `Normalization`, `ContentTable`, `Decimal`, `Bytes` | `scripts/upstream_branding.py` |
| preview | `Paths`, `Preview`, `Rows`, `Conflicts`, `ThreeWay`, `PreviewInputs`, `Dispositions`, `BuildPreview`, `Blobs`, `Changes` | `scripts/upstream_preview.py`, `scripts/upstream.py` |
| apply | `Checkout`, `ApplyPlan`, `Obstacles`, `Apply`, `Plan`, `SkipLines`, `Completeness`, `Port` | `scripts/upstream_apply.py` |
| ledger and patches | `Ledger`, `LedgerProtocol`, `LedgerSerial`, `LedgerExits`, `LedgerDecisions`, `LedgerRecheck`, `Patch`, `PatchLines`, `PatchParts` | `scripts/upstream_actions.py`, `scripts/upstream_ledger.py` |
| configuration hand-off | `OfferNewest` | `cmd/foxxycode/serve.go` |

Code that changes things step by step is a method with its loops, or a class with fields (`Rows.Row`,
`Rows.Artifacts`, `Checkout.WorkingTree`), proved against a specification function or predicate; the theorems
are lemmas about that specification. The two concurrent pieces are state machines, and their theorems range
over every run.

The main results, each stated for all inputs:

- **Waves tile the range.** The explicit-stack traversal terminates on every acyclic history and equals the
  recursive post-order; the windows cut from it are pairwise disjoint, cover `base..target`, and each one is
  exactly git's range between its own ends. The checkpoints at which waves end are exactly the
  commits of target's first-parent chain that properly descend from base, and a wave ends at the first one at
  which the limits make a cut due.
- **Path conflicts are a least fixed point**, reached in at most one round more than there are rows, whatever
  the row order; dropping rows can only add conflicts among the rest. `Dispositions` says in terms of the three
  trees and their blobs which rows make room, and what every disposition means.
- **Apply yields a file tree and loses nothing.** The checkout may hold local edits, deletions and untracked
  files at the paths the filter protects, and empty directories anywhere. The step-by-step run over it, pruning
  included, either ends in exactly the set-level result or fails at the first write that something impedes, and
  it fails only there. Every protected path keeps what it holds in either case. After a successful run every
  other file is untouched, or replaced by its merge, or removed because upstream removed it and the fork had not
  edited it. `Port.PortRange` states this end to end for the fork's real renaming function.
- **Apply leaves nothing out.** Every row that can be applied without judgement, conflicts with no path and names
  no protected path has arrived after a successful run: an edit, rename, addition or deletion on one side whole
  (`Completeness.OneSidedChangesArrive`, `Completeness.DeletionsArrive`). Every other row has a line in the report
  with the first reason that holds it back.
- **Ledger writers exclude each other** under every interleaving, and the ledger only ever changes to one
  complete document. In a run of lock-respecting writers the ledger holds exactly the decisions committed so
  far if and only if every committing writer had loaded a ledger that agrees, outside its own batch, with what
  it read again under the lock (`LedgerDecisions.NoDecisionLost`).
- **An adapted patch keeps its hunks.** With the tool's own tables the output of a patch without lone CRs has,
  part by part, the expected lines; with lone CRs a text payload keeps the number, markers and ends of its
  lines exactly when no dropped piece carries an LF.
- **Parsers invert printers** for the batch stream of blobs and for name-status records, and every proper
  prefix of a batch stream is rejected.

Hypotheses on git: histories are acyclic; `git log --reverse --topo-order base..target` lists the range once,
parents first (`Waves.IsRange`); trees are prefix-free; and, only where a lemma says so, `git merge-file`
satisfies merge(b,b,t)=t, merge(b,o,b)=o and merge(b,o,o)=o without conflicts (`ThreeWay.MergeLaws`).

## Where the code does less than one might expect

- Normalizing twice is not the same as normalizing once: CR CR LF becomes CR LF and would shrink again. The
  code is idempotent exactly on texts without CR CR LF (`Normalization.NormalizeIdempotent`).
- A preview row `add_add_equal` does not mean that both sides added the same text: an empty file on either side
  gives way to the other side's text under the same status (`ThreeWay.AddAddEqualIsNotEquality`).
  `ThreeWay.AddAddEqualMeaning` gives the exact condition for a merge that notices two different nonempty texts
  over an empty base.
- `adapt_patch` splits lines with `bytes.splitlines`, which also ends a line at a lone CR, and drops any piece
  that starts with `index `. Inside a hunk such a piece is content. If the piece carries the line's LF, the line
  loses its end as well (`Patch.LoneCrLosesBytes`) and hunk counts break; if not, only its bytes are lost.
  `PatchLines.HunksSurviveExactly` gives the exact condition on a payload.
- `record` loads the ledger before `write_ledger` takes the lock, so two records that both respect the lock can
  lose an update (`LedgerProtocol.LostUpdate`, and `LedgerDecisions.DecisionLost` in terms of decisions).
  `LedgerDecisions.CommitKeepsOthers` gives the exact condition for one commit and `LedgerDecisions.NoDecisionLost`
  the one for whole runs; a writer could test it by reading the ledger again once it holds the lock. Loading the
  very bytes that it reads there is enough (`LedgerSerial.CommitIsSerial`, `LedgerSerial.FreshRunReplays`), but
  not needed: a stale load does no harm if the batch itself covers every decision recorded meanwhile.
- An error inside the cleanup of `write_ledger` keeps its lock, and possibly its temporary file, and the lock
  then keeps every other writer out (`LedgerExits.LeavesBoth`); `LedgerExits.LeftBehind` says exactly when.
- The filter of `apply_preview` asks about a row's own paths only, so it does not notice an untracked file that
  sits where a written path needs a directory, nor an empty directory at the path itself, which Git's status does
  not report. The write then fails after all removals and some writes have been done
  (`Obstacles.FilterMissesUntracked` has such an input). `Apply.ApplyPreview` succeeds exactly when neither is at
  any written destination; when it fails, it fails at the first such row in order, and only committed files, which
  Git still has, have changed or gone (`Port.PortRange`). `Obstacles.UnimpededFits` and
  `ApplyPlan.FinalPrefixFree` give the condition in terms of the final set of paths.
- Scan and waves call the same commits open only because the ledger schema has no status "unreviewed"
  (`Accounting.JudgedAlike`).

`offerNewest` relies on offers being published one at a time. Both publishers keep that promise with a mutex held
over the notification (internal/session/manager.go:414-435, internal/serve/liveconfig.go:36-48), so the theorems
take it as a hypothesis; `OfferNewest.OverlapDropsNewest` shows that it cannot be dropped.

## Model

| member | source | states |
|---|---|---|
| WaveOrder.VisitListing | scripts/upstream_wave.py:52-63 | Visiting a commit extends a duplicate-free, parents-first list by exactly its missing ancestors |
| WaveOrder.DrainOpen | scripts/upstream_wave.py:61-63 | Pushing a commit's expanded frame below its parents, last parent deepest, has the same outcome as visiting it recursively |
| WaveOrder.VisitCheckpoint | scripts/upstream_wave.py:53-63 | The inner stack loop terminates on every acyclic graph, although a commit may sit on the stack many times, and emits the recursive post-order |
| WaveOrder.VisitSettles | scripts/upstream_wave.py:52-63 | With its first parent's ancestors already listed, a mainline commit closes a prefix that is exactly its own ancestor set |
| WaveOrder.SettledStays | scripts/upstream_wave.py:51-64 | Later checkpoints never disturb a prefix that is already closed |
| WaveOrder.WalkMainline | scripts/upstream_wave.py:46-50 | The first-parent walk terminates and yields the first-parent chain from target, for as long as it stays in range |
| WaveOrder.ChainLinks | scripts/upstream_wave.py:46-50 | That chain starts at target, is empty only when target is out of range, and links each commit to its first parent |
| WaveOrder.MainlineExactly | scripts/upstream_wave.py:46-50 | A commit is on that chain if and only if first-parent edges inside the listed range lead to it from target |
| WaveOrder.BranchesInOrder | scripts/upstream_wave.py:52-63 | The branches that a commit merges are listed in the order of its parents |
| WaveOrder.EmitMainline | scripts/upstream_wave.py:51-63 | Over the whole mainline: a parents-first permutation of the commits reachable from target, in which every mainline commit closes exactly its ancestors, its branches in the order of its parents |
| WaveOrder.Descendants | scripts/upstream_wave.py:42-45 | One pass over a parents-first list finds exactly the commits with a path down to base |
| WaveOrder.IndexCommits | scripts/upstream_wave.py:41 | The index by sha maps each commit of the list to its own parents |
| WaveOrder.PositionRanks | scripts/upstream_wave.py:41-50 | A parents-first list makes its own index acyclic, ranked by position |
| WaveOrder.CheckpointOrder | scripts/upstream_wave.py:39-64 | The order is a parents-first permutation of what target reaches, every mainline commit closes its ancestor set, the mainline is what first parents reach inside the range, and checkpoints are the mainline commits below base |
| WaveCuts.PlanCuts | scripts/upstream_wave.py:22-36 | The single pass returns the greedy plan: each cut is the first admissible end after the previous one, and the flag says whether some cut is untagged |
| WaveCuts.GreedyUnique | scripts/upstream_wave.py:22-36 | No other list of cuts is complete and greedy |
| WaveCuts.CutsShape | scripts/upstream_wave.py:33-36 | Cuts strictly increase, end at the last index, and all but the last are checkpoints; no commits give no cuts |
| WaveCuts.WaveBudget | scripts/upstream_wave.py:26-35 | For positive limits every wave has at most max_tags tagged checkpoints, and every wave but the last is a tagged one that reached a limit or an untagged one over twice max_commits |
| WaveCuts.CutWhenDue | scripts/upstream_wave.py:26-35 | A cut is never late: before a wave's end every tagged checkpoint is within both limits and every untagged one within twice max_commits |
| WaveCuts.CutIsDue | scripts/upstream_wave.py:26-35 | A cut is never early: every wave but the last ends at a checkpoint at which a limit is reached, or without a tag twice max_commits is passed |
| WaveCuts.WaveLength | scripts/upstream_wave.py:29-35 | If checkpoints are at most a gap apart, no wave exceeds twice max_commits plus the gap |
| WaveCuts.OrphanMeaning | scripts/upstream_wave.py:31-32 | The orphan flag is set exactly when some wave ends at an untagged checkpoint with a span over twice max_commits |
| Waves.RangeReach | scripts/upstream_wave.py:72-77 | Ancestry walked inside the listed range is ancestry in the history minus the ancestors of base |
| Waves.BelowIsDescendant | scripts/upstream_wave.py:42-45 | The one-pass descendant test inside the range agrees with descent from base in the full history |
| Waves.MainlineInRange | scripts/upstream_wave.py:46-50 | The first-parent chain walked inside the listed range is that of the full history as far as it is not in base |
| Waves.CheckpointsExactly | scripts/upstream_wave.py:39-64 | In the full history: checkpoints are exactly the commits of target's first-parent chain that properly descend from base |
| Waves.WindowIsRange | scripts/upstream_wave.py:91-94 | The window between two checkpoints is exactly git's range between them, and the first is a proper ancestor of the second |
| Waves.FirstWindowIsRange | scripts/upstream_wave.py:91-94 | The first window is git's range from base to the first cut, base being a proper ancestor of it |
| Waves.CutWindows | scripts/upstream_wave.py:89-120 | The loop over the cuts builds each wave from its slice, the previous wave's end and the count of open commits |
| Waves.CountUnreviewed | scripts/upstream_wave.py:115-117 | The count is the number of distinct commits of the window that have no closed decision |
| Waves.BuildWaves | scripts/upstream_wave.py:67-124 | Non-positive limits are refused and nothing else is; otherwise the waves tile base..target and are the slices of the greedy plan over the checkpoint order, with the input tags and limits and exactly the checkpoints that the full history has, and the warning flag is the plan's |
| Waves.CutsAreCheckpoints | scripts/upstream_wave.py:80-94 | Every cut closes git's range from base to its commit, and the last cut is target |
| Waves.WavesPartition | scripts/upstream_wave.py:39-40 | Tiling waves are pairwise disjoint and together are exactly git's base..target |
| Waves.WavesChain | scripts/upstream_wave.py:93-110 | Waves are numbered from 1, each starts where the previous one ended, the first at base, the last ending at target |
| Waves.UnreviewedTotal | scripts/upstream_wave.py:115-117 | Summed over the waves, the unreviewed counts count each open commit of the range exactly once |
| Accounting.Scan | scripts/upstream.py:208-212 | Pending holds each open commit of the range once, in range order; backlog holds exactly the open entries outside the range, in ledger order |
| Accounting.RecordedAt | scripts/upstream.py:180 | For a ledger without repeated shas the lookup table mirrors the entries in both directions |
| Accounting.OpenExactlyOnce | scripts/upstream.py:210-212 | An open ledger entry is in exactly one of pending and backlog |
| Accounting.JudgedAlike | scripts/upstream_wave.py:115-117 | Scan and waves judge a commit alike if and only if it is not recorded with the status "unreviewed" |
| Accounting.SchemaStatuses | scripts/upstream_ledger.py:71-73 | A ledger that satisfies the schema never records that status, so both tools agree on every commit |
| Accounting.PendingExactly | scripts/upstream.py:207-212 | In a valid ledger an entry is open exactly if it lists remaining work, and a commit is pending exactly if it has no entry or such a one |
| Accounting.ReportsAgree | scripts/upstream_wave.py:115-117 | The same for any tiling waves that carry the open counts of their commits |
| Accounting.WavesAndScanAgree | scripts/upstream.py:207-212 | For the waves that the wave planner cuts and the pending list that the scan builds from one range and one valid ledger, the unreviewed counts add up to the length of the list |
| Text.ReplaceRemoves | scripts/upstream_branding.py:32-33 | Replace-all leaves no occurrence of the replaced text when the replacement cannot take part in one |
| Text.ReplaceLeaves | scripts/upstream_branding.py:32-33 | Whatever inert text occurs after replace-all occurred before it, and is not the replaced text |
| Branding.SequentialIsOnePass | scripts/upstream_branding.py:30-34 | For independent tokens, replacing one token after the other equals a single left-to-right pass |
| Branding.BrandIndependent | scripts/upstream_branding.py:5 | The three brand tokens and their replacements are independent in that sense |
| Branding.ForkPath | scripts/upstream_branding.py:30-34 | The replacement loop computes the sequential replacement over the brand table |
| Branding.RebrandClean | scripts/upstream_branding.py:30-34 | A fork path contains none of the three brand spellings |
| Branding.RebrandIdempotent | scripts/upstream_branding.py:30-34 | Mapping a fork path again changes nothing |
| Branding.RebrandLength | scripts/upstream_branding.py:30-34 | A path grows by four characters for each brand occurrence of the original path |
| Branding.RebrandSeparator | scripts/upstream_branding.py:30-34 | Mapping commutes with joining at a slash and creates no slash |
| Branding.RebrandComponents | scripts/upstream_branding.py:30-34 | The components of a fork path are the mapped components, so depth is kept |
| Normalization.NormalizeText | scripts/upstream_branding.py:37-43 | The loop computes CRLF to LF followed by the content table, or by nothing for the fork's side and for README files |
| Normalization.LineEndsOnly | scripts/upstream_branding.py:37-43 | Fork texts and READMEs are left alone but for their line ends: each CR LF becomes LF, and a text without one does not change |
| ContentTable.ContentIsOnePass | scripts/upstream_branding.py:11-15 | Replacing the nine sources of the content table one after the other equals one left-to-right pass that prefers repository URLs to module paths to brand names |
| ContentTable.NormalizedUrl | scripts/upstream_branding.py:10-15 | Wherever an upstream repository URL stands in an upstream text, it becomes the fork's repository URL under the same scheme, and what is around it is treated as if it stood alone |
| ContentTable.NormalizedModule | scripts/upstream_branding.py:6-9 | A module path that no http or https scheme precedes becomes the fork's module path in the same way |
| ContentTable.BrandBecomes | scripts/upstream_branding.py:5 | A brand spelling that no longer source covers becomes the fork's spelling |
| Normalization.NormalizeClean | scripts/upstream_branding.py:37-43 | Upstream text outside the README exemption is free of all brand spellings after normalizing, URLs and module paths included |
| Normalization.CrLfLeft | scripts/upstream_branding.py:39 | The line-end step leaves a CR LF exactly when the text held CR CR LF |
| Normalization.NormalizedCrLf | scripts/upstream_branding.py:37-43 | No replacement table adds or removes a CR LF, so the same condition decides for the whole function |
| Normalization.NormalizeIdempotent | scripts/upstream_branding.py:37-43 | Normalizing twice equals normalizing once if and only if the text has no CR CR LF |
| Paths.PrefixInterval | scripts/upstream_preview.py:51-55 | In the lexicographic order the strings with a given prefix form one interval |
| Paths.BisectLeft | scripts/upstream_preview.py:52 | Binary search finds the boundary between smaller entries and the others |
| Paths.AscendingUnique | scripts/upstream_preview.py:67 | A sorted duplicate-free list is determined by its elements |
| Paths.AboveIsParent | scripts/upstream_preview.py:48-50 | Every ancestor directory of a path is one of its joined component prefixes, at its own depth |
| Paths.ParentIsAbove | scripts/upstream_preview.py:48-50 | Every joined proper component prefix is an ancestor directory |
| Preview.CheckMappings | scripts/upstream_preview.py:31-44 | Accepted exactly when the mapping is injective and the mapped paths are prefix-free; otherwise the error names a real collision |
| Preview.PathBlockers | scripts/upstream_preview.py:47-56 | Returns, sorted, exactly the entries that are proper ancestors or proper descendants of the path |
| Preview.ParentsIn | scripts/upstream_preview.py:48-50 | The component loop finds exactly the ancestor directories among the entries, shortest first |
| Preview.ScanIsComplete | scripts/upstream_preview.py:51-55 | The contiguous scan from the search position misses no entry with the prefix |
| Conflicts.BlockIfObstructed | scripts/upstream_preview.py:70-82 | One row: blocked exactly when it writes, is not blocked yet and something in its way remains; then it names exactly those paths and its candidate leaves the store |
| Conflicts.OneRound | scripts/upstream_preview.py:68-82 | One pass does this to every row against the same remaining paths and reports progress exactly when a row changed |
| Conflicts.NamedGrows | scripts/upstream_preview.py:69-82 | A round adds to the blocked rows only rows that list all the remaining paths in their way, and nothing else |
| Conflicts.StageBelow | scripts/upstream_preview.py:62-84 | No round blocks a row outside any closed set |
| Conflicts.LeastIsFixed | scripts/upstream_preview.py:60-84 | In the least closed set a row is blocked if and only if what the unblocked rows leave behind is in its way |
| Conflicts.LeastUnique | scripts/upstream_preview.py:59-84 | The result does not depend on the order of the rows |
| Conflicts.FewerRowsMoreConflicts | scripts/upstream_apply.py:47-48 | Dropping rows keeps every conflict among the remaining rows |
| Conflicts.ClassifyPathConflicts | scripts/upstream_preview.py:59-84 | Terminates within one round more than there are rows; the blocked rows are the least closed set, they lose candidate and mode and list exactly what was in their way in the round that blocked them, and every other row is unchanged |
| ThreeWay.UpstreamOnly | scripts/upstream_preview.py:178-196 | A change made only upstream yields upstream's text and mode, deletion and addition included |
| ThreeWay.ForkOnly | scripts/upstream_preview.py:178-196 | A change made only in the fork keeps the fork's text and mode, and a one-sided deletion or addition is left to a human |
| ThreeWay.BothSides | scripts/upstream_preview.py:190-196 | Equal results on both sides merge cleanly to that result |
| ThreeWay.ContentAndModeApart | scripts/upstream_preview.py:188-196 | A text change on one side and a mode change on the other combine |
| ThreeWay.DeletesOnlyUnedited | scripts/upstream_preview.py:180-182 | A clean deletion happens exactly when upstream deleted and the fork's text and mode equal the base |
| ThreeWay.ModesMerge | scripts/upstream_preview.py:179-196 | A row with both sides is a mode conflict exactly when no mode honours both sides' changes against the base; otherwise it carries the only mode that does |
| ThreeWay.ApplyableCarriesMerge | scripts/upstream_preview.py:180-196 | An applyable row is conflict-free, carries the merge of its three sides and a mode, or is a deletion |
| ThreeWay.AddAddEqualCases | scripts/upstream_preview.py:191-196 | From the merge laws alone: with equal modes, equal texts or an empty one give add_add_equal with the text that is not empty |
| ThreeWay.AddAddEqualMeaning | scripts/upstream_preview.py:191-194 | For a merge that notices two different nonempty texts over an empty base, add_add_equal is given if and only if the modes agree and the texts are equal or one of them is empty |
| ThreeWay.AddAddEqualIsNotEquality | scripts/upstream_preview.py:191-194 | Counterexamples: with an empty file on the fork's side, or on upstream's, the status add_add_equal is given to different texts and the row carries the nonempty one |
| Dispositions.ReadsExactly | scripts/upstream_preview.py:135-179 | The versions that decide a row are the regular text files at upstream's old name, at the fork's old or only name, and at upstream's new name, rebranded except in the fork and in READMEs; they are compared exactly when all three are text or missing and the fork has not taken both names |
| Dispositions.StatusMeans | scripts/upstream_preview.py:177-196 | Each status of such a row is given if and only if its versions are related as the status says |
| Dispositions.StructuralMeans | scripts/upstream_preview.py:158-176 | Rows that are no text get the first of four structural reasons that holds |
| Dispositions.CanApplyExactly | scripts/upstream_apply.py:10 | The applyable statuses are exactly those of unedited deletions, of new upstream files and of conflict-free merges |
| Dispositions.FreesExactly | scripts/upstream_preview.py:63-65 | For every row: the classification takes a fork path for free if and only if upstream deleted the file and the fork had not edited it, or the conflict-free merge goes to another path |
| Dispositions.LeastIsPlain | scripts/upstream_preview.py:59-84 | The least blocked set is the least set of rows closed under: a target path that clashes with a fork path that no unblocked row takes away |
| BuildPreview.Dispose | scripts/upstream_preview.py:177-196 | One row's status, conflict count, mode and candidate are the three-way verdict, and the store gains that candidate only |
| BuildPreview.MergedNameInjective | scripts/upstream_preview.py:154-157 | Artifact names of different rows differ, beyond five digits too |
| BuildPreview.BuildRow | scripts/upstream_preview.py:135-196 | A row records the delta's paths and objects and starts with the verdict for its sides |
| BuildPreview.BuildRows | scripts/upstream_preview.py:134-196 | Rows, their initial outcomes and the candidate store agree with the deltas one by one |
| BuildPreview.BuildPreview | scripts/upstream_preview.py:130-197 | Refused exactly when one of the two mapping checks fails; otherwise the rows that end as path conflicts are the least such set in terms of trees and blobs, they list the clashes of their round, and the store holds the surviving candidates |
| BuildPreview.ConflictsAreLeast | scripts/upstream_preview.py:59-84 | The rows whose final status is path_conflict are exactly that least set |
| Blobs.ReadBlobs | scripts/upstream_preview.py:93-105 | The cursor loop accepts exactly what the recursive reader accepts, with the same contents |
| Blobs.ReadPrinted | scripts/upstream_preview.py:95-104 | Reading a printed record returns its content, newlines included, and leaves the rest of the stream |
| Blobs.ReadInvertsPrint | scripts/upstream_preview.py:87-105 | Reading a printed stream for any ids and contents returns exactly each id's content |
| Blobs.CutRecord | scripts/upstream_preview.py:95-103 | A record cut anywhere is rejected |
| Blobs.CutStream | scripts/upstream_preview.py:94-103 | Every proper prefix of a printed stream is rejected |
| Blobs.ReadExactly | scripts/upstream_preview.py:95-104 | A record is read if and only if a header line of the identifier, the word blob and a numeral announces its content, framed by line feeds |
| Blobs.AcceptedStream | scripts/upstream_preview.py:87-105 | Whatever stream is accepted carries each identifier in such a header with the content that is returned for it, in order |
| Changes.ParseChanges | scripts/upstream.py:74-87 | The cursor loop computes the recursive grammar of name-status records, errors included |
| Changes.ParseInvertsPrint | scripts/upstream.py:74-87 | Parsing inverts the NUL-separated printer for every list of well-formed changes, renames and copies included |
| Changes.ParsedIsWellFormed | scripts/upstream.py:74-87 | Whatever is accepted from NUL-free fields is a list of well-formed changes |
| Changes.AcceptedExactly | scripts/upstream.py:74-87 | Fields are accepted as a list of records if and only if they are complete records of that list, up to the end or an empty field |
| Changes.OldPathFirst | scripts/upstream.py:79-85 | In a rename or copy record, and in no other, the old path comes before the new one |
| Changes.PathsAreThePrinted | scripts/upstream.py:90-91 | The path set of a list of changes is exactly the set of its printed path fields |
| Checkout.PrefixFreeDirs | scripts/upstream_preview.py:38-44 | A file set is prefix-free exactly when no file sits where a directory is needed |
| Checkout.WorkingTree.Remove | scripts/upstream_apply.py:89-94 | Unlinking and pruning empty parents removes that file only and keeps the directories exactly those above the files and those kept by empty directories |
| Checkout.WorkingTree.MkdirParents | scripts/upstream_apply.py:70 | Creating parents adds exactly the missing ancestor directories, each below an existing one, and is refused with nothing created exactly when a file is one of the ancestors |
| Checkout.WorkingTree.Write | scripts/upstream_apply.py:69-73 | A write succeeds exactly when no directory is at the path and no file where it needs a directory; it sets that file only and keeps the tree tidy, and a refused one changes nothing |
| Checkout.ValidIsTidy | scripts/upstream_apply.py:89-94 | In every file system tree pruning can be accounted for: the directories are those above files and those that lead down to a directory without files |
| Checkout.TidyIsValid | scripts/upstream_apply.py:55-75 | Conversely a tidy tree is a file system tree: directories lie in directories and no path is both |
| ApplyPlan.ApplyableIsText | scripts/upstream_preview.py:169-179 | An applyable verdict comes from the text branch: no collision, regular modes, both sides as recorded in the trees |
| ApplyPlan.ApplyableRow | scripts/upstream_apply.py:55-73 | An applyable row that writes has a target, a candidate and a regular mode; one that takes a path away takes a fork path; a written path held by the fork is the row's own source |
| ApplyPlan.FinalPrefixFree | scripts/upstream_apply.py:55-73 | What stays of the checkout plus the written destinations contains no path that is an ancestor of another, if and only if no untracked file is an ancestor of a destination |
| ApplyPlan.GuardedStay | scripts/upstream_apply.py:24-45 | Paths with local edits and unsafe paths are neither removed nor written by the selected rows, so they hold after the removals and any number of writes what they held before; every removed path is in the checkout |
| ApplyPlan.OverlayValid | scripts/upstream_apply.py:62-73 | Every intermediate state of the write loop is a valid tree, including the file about to be written |
| ApplyPlan.ResultIsTree | scripts/upstream_apply.py:55-73 | The final path set is exactly checkout paths minus removals plus destinations, and it is a valid file tree |
| ApplyPlan.FinalAt | scripts/upstream_apply.py:68-73 | Each written destination ends up with its own row's merged content and mode |
| ApplyPlan.RowAccounts | scripts/upstream_apply.py:26-75 | A row's source, if the fork has it, is deleted because unedited and deleted upstream, or its merge with upstream stands at the destination |
| ApplyPlan.NothingLost | scripts/upstream_apply.py:26-75 | Every file of the checkout, tracked or not, is unchanged, or it was the committed fork file and an applied row accounts for it in that way |
| ApplyPlan.UnnamedUnchanged | scripts/upstream_apply.py:55-75 | A path named by no applied row keeps its content and mode, or its absence |
| ApplyPlan.OneSidedChange | scripts/upstream_preview.py:190-196 | In the final files an upstream-only change shows upstream's text and mode, a fork-only change the fork's |
| Obstacles.OnlyImpedimentsInTheWay | scripts/upstream_apply.py:62-73 | After the removals and any number of writes the next destination is writable if and only if no empty directory is at it and no file outside the fork's tree where it needs a directory |
| Obstacles.UnimpededFits | scripts/upstream_apply.py:62-73 | No destination is impeded exactly when the final path set is a valid tree and no destination is an empty directory |
| Obstacles.FilterMissesUntracked | scripts/upstream_apply.py:28-54 | Counterexample input: an untracked file a and a new upstream file a/b, which every filter lets through and which cannot be written |
| Apply.RefusedOrAccepted | scripts/upstream_apply.py:34-46 | A row has no refusal reason exactly when its status is applyable and none of its paths is unsafe or edited locally |
| Apply.RefusalMeans | scripts/upstream_apply.py:28-45 | A row is refused for its status, else for an unsafe path, else for its edited paths, the new name before the old one, else not at all |
| Apply.FirstFilter | scripts/upstream_apply.py:28-46 | The first filter keeps exactly the accepted rows in order and reports every other row with its first applicable reason |
| Apply.SecondFilter | scripts/upstream_apply.py:49-54 | The second filter keeps exactly the rows that are still applyable and reports the others with their status |
| Apply.RemovesIsTakes | scripts/upstream_apply.py:58-59 | On applyable rows apply's removal formula and the classifier's, though written differently, name the same paths |
| Apply.KeptRemovals | scripts/upstream_apply.py:48-61 | What the kept rows remove is exactly what the second pass assumed the unblocked rows remove |
| Apply.KeptAreApplicable | scripts/upstream_apply.py:47-54 | After the second pass no kept row's destination is obstructed by what stays in the checkout |
| Apply.LateSkips | scripts/upstream_apply.py:50-52 | The late skip lines are exactly the picked rows in the second pass's least blocked set, all with path_conflict |
| Apply.KeptIsSelection | scripts/upstream_apply.py:47-54 | The rows applied are exactly the accepted rows outside that set, in report order |
| Apply.SelectionSpares | scripts/upstream_apply.py:31-46 | Neither source nor destination of a selected row is unsafe or locally edited |
| Apply.DeepestFirst | scripts/upstream_apply.py:60 | Sorting by depth, deepest first, then by name, loses and repeats nothing |
| Apply.RemoveAll | scripts/upstream_apply.py:60-61 | Removing a set of files one by one with pruning leaves a tidy tree without exactly those files |
| Apply.Choose | scripts/upstream_apply.py:28-54 | Filtering, reclassifying and filtering again yields an applicable selection whose candidates are still in the store, and the complete list of skipped lines |
| Apply.WriteOne | scripts/upstream_apply.py:62-75 | One turn of the write loop advances the set-level result by one row, changes nothing when dry, and fails without a change exactly when the row's destination is impeded |
| Apply.WriteAll | scripts/upstream_apply.py:62-75 | The write loop succeeds exactly when no destination is impeded and then reaches the set-level result with one report line per row; otherwise it stops at the first impeded row with the rows before it written |
| Apply.ChangeTree | scripts/upstream_apply.py:55-75 | Removals and then writes turn any tidy checkout into the set-level result, or into its state before the first impeded row |
| Apply.ApplyPreview | scripts/upstream_apply.py:24-75 | The whole run on a checkout that may differ from the fork at protected paths: selection, skipped lines, report and checkout are as specified; it fails exactly when a written destination is impeded, at the first such row; protected paths keep what they hold in every case, and a dry run changes nothing |
| Plan.RowIsPlanned | scripts/upstream_apply.py:34-46 | Whether a preview row passes the first filter follows from its delta's verdict, the preview's conflict set and the checkout's state at the delta's fork paths |
| Plan.SelectionIsPlanned | scripts/upstream_apply.py:17-54 | The rows that preview, filter, second pass and second filter select are the planned ones: acceptable deltas outside the least conflict set of the acceptable deltas |
| Plan.PlanIsUnique | scripts/upstream_apply.py:17-54 | The inputs and the state of the checkout determine both conflict sets and the list of applied rows |
| Plan.PlannedIsPlain | scripts/upstream_apply.py:13-54 | The planned rows in terms of trees and blobs: those that can be applied, are not least-blocked, name no guarded path and are not least-blocked among such rows |
| Plan.PlannedRowsUnique | scripts/upstream_apply.py:13-54 | The inputs and the state of the checkout determine both sets of numbers and the list of applied rows |
| SkipLines.SkipsAreExplained | scripts/upstream_apply.py:28-52 | The skipped lines are those of the rows not applied, each with its destination and the first reason that holds |
| Completeness.RowArrives | scripts/upstream_apply.py:55-75 | After the writes an applied row's destination holds the file it should become, and the fork's old file is gone |
| Completeness.PlannedArrive | scripts/upstream_apply.py:13-75 | Every row that can be applied, is in no path conflict and names no guarded path has arrived |
| Completeness.OneSidedChangesArrive | scripts/upstream_apply.py:13-75 | With the merge laws: a file edited, renamed, added or re-moded by upstream alone, edited by the fork alone, or changed alike is applied and has the changed side's normalized text and mode at its destination, its old name gone |
| Completeness.DeletionsArrive | scripts/upstream_apply.py:55-61 | A file that upstream deleted and the fork had not edited is gone |
| Completeness.ReportedAsDone | scripts/upstream_apply.py:63-75 | The line of an applied row is a deletion exactly if upstream has no such file, else a write with the mode of the file now at its destination, and its status tells which versions there were |
| Port.RebrandKeepsGitPath | scripts/upstream_branding.py:30-34 | Mapping keeps paths well formed: no empty components appear |
| Port.RebrandParent | scripts/upstream_branding.py:30-34 | The n-th parent directory of a fork path is the fork name of the n-th parent directory |
| Port.RebrandInside | scripts/upstream_branding.py:30-34 | A path inside a directory is mapped inside the mapped directory |
| Port.PortRange | scripts/upstream_apply.py:13-75 | Preview and apply with the fork's own mapping: refused exactly on a mapping collision with the checkout untouched; otherwise the planned rows are applied, up to the first impeded one, and the run succeeds exactly when there is none, with every row that nothing holds back arrived, every other row explained in the report, and every file unchanged or accounted for; in every case local edits stay, the checkout is a file system tree and only committed files change |
| Ledger.MergeEntries | scripts/upstream_actions.py:123-138 | Succeeds exactly when the batch is duplicate-free and, without update, each entry is new or identical; the result is the batch put entry by entry; an error names the first entry that cannot be merged and why |
| Ledger.PutAllLookup | scripts/upstream_actions.py:135-137 | A commit outside the batch keeps its decision |
| Ledger.PutAllOverrides | scripts/upstream_actions.py:135-137 | A commit of the batch has the batch's decision |
| Ledger.OrderKept | scripts/upstream_actions.py:135-137 | Recorded commits keep their places and new ones follow in batch order |
| Ledger.PutAllUnique | scripts/upstream_actions.py:123-138 | Shas stay unique |
| Ledger.MergeTwice | scripts/upstream_actions.py:123-138 | Merging a batch again changes nothing and needs no update flag |
| Ledger.ValidateLedger | scripts/upstream_ledger.py:43-87 | No error exactly for documents of the schema; a document error exactly when the part around the entries breaks it; otherwise the error names the first bad entry and tells a repeated commit from any other fault |
| Ledger.RestValid | scripts/upstream_ledger.py:71-87 | The per-entry checks after the sha accept exactly the valid entries |
| Ledger.EntryExactly | scripts/upstream_ledger.py:61-87 | What `record` writes is valid if and only if the entry's own fields are: one of five statuses, commits for three of them, remaining work for exactly two |
| Ledger.RecordedLedgerValid | scripts/upstream_actions.py:187-188 | Merging into a valid ledger passes validation exactly when every entry of the batch is valid on its own |
| LedgerProtocol.StepInv | scripts/upstream_actions.py:147-168 | Every step of every writer, failures at any statement included, and every outside edit keep the protocol invariant |
| LedgerProtocol.OthersConsistent | scripts/upstream_actions.py:147-168 | A step of one writer leaves another writer's variables, lock and temporary file as they were |
| LedgerProtocol.MutualExclusion | scripts/upstream_actions.py:151-168 | In every run at most one writer is between creating and unlinking the lock |
| LedgerProtocol.CleanExit | scripts/upstream_actions.py:163-168 | In every run a writer that has finished, successful or not, has left neither temporary file nor lock; one stopped inside its cleanup holds the lock and nobody else does |
| LedgerExits.LeftBehind | scripts/upstream_actions.py:163-168 | An ended writer has left its lock if and only if the run contains a fault in its cleanup, and its temporary file if and only if it created one and neither renamed nor unlinked it |
| LedgerExits.StuckStays | scripts/upstream_actions.py:151-168 | After a fault in a writer's cleanup nobody ever takes the lock again |
| LedgerExits.TempTrace | scripts/upstream_actions.py:153-165 | At every moment of every run the temporary file exists exactly between its creation and its renaming or unlinking |
| LedgerExits.LeavesBoth | scripts/upstream_actions.py:150-168 | Counterexample run: an error before the commit and another in the cleanup leave lock and temporary file, the ledger being unchanged |
| LedgerProtocol.UnlinksOwnLock | scripts/upstream_actions.py:166-168 | A writer only unlinks a lock it created |
| LedgerProtocol.LedgerSteps | scripts/upstream_actions.py:159-162 | Only the replace step of the lock holder changes the ledger, to its complete document computed from the version it loaded |
| LedgerProtocol.RecheckNeverFails | scripts/upstream_actions.py:159-160 | Among writers that respect the lock the comparison always succeeds, and the ledger holds its first bytes or one complete document |
| LedgerRecheck.ReplacesUnchanged | scripts/upstream_actions.py:152-161 | In every run whoever replaces the ledger had found in it, at its comparison, the bytes it had read under the lock |
| LedgerRecheck.ChangeIsNoticed | scripts/upstream_actions.py:159-168 | If somebody changed the ledger between a writer's reading and its comparison, the writer fails and never replaces it |
| LedgerProtocol.SoloCommit | scripts/upstream_actions.py:147-168 | A loaded writer that finds the lock free and is left alone commits its document and cleans up |
| LedgerProtocol.LostUpdate | scripts/upstream_actions.py:184-193 | Counterexample run: two lock-respecting records finish successfully and the first one's decision is gone |
| LedgerSerial.CommitIsSerial | scripts/upstream_actions.py:184-193 | A commit among lock-respecting writers is an update of the ledger it replaces if the writer had loaded the bytes it read under the lock |
| LedgerSerial.FreshRunReplays | scripts/upstream_actions.py:151-193 | Over whole lock-respecting runs: if every committing writer had loaded the bytes it read under the lock, every commit is serial and the ledger is the replay of all commits in order |
| LedgerSerial.NoCommitBetween | scripts/upstream_actions.py:184-193 | In terms of events: a writer's commit is serial if nobody commits between its load and its taking of the lock |
| LedgerDecisions.CommitKeepsOthers | scripts/upstream_actions.py:184-193 | A commit of `record` leaves every decision outside its batch, and the other fields, as they are in the ledger it replaces if and only if the ledger it had loaded agrees there with what it read under the lock |
| LedgerDecisions.CommitAsIfLoadedUnderLock | scripts/upstream_actions.py:180-194 | A commit does what recording would do with a load under the lock, merge refusal included, if and only if moreover the batch could be merged into what it read there |
| LedgerDecisions.NoDecisionLost | scripts/upstream_actions.py:123-193 | Over whole lock-respecting runs: the ledger holds at every moment exactly the decisions committed so far if and only if every commit came from a load that was fresh outside its batch |
| LedgerDecisions.DecisionLost | scripts/upstream_actions.py:184-193 | Counterexample run for any two writers: both finish without an error and the first one's decision is as if never recorded |
| LedgerDecisions.EveryVersionValid | scripts/upstream_actions.py:187-193 | From a valid ledger and with valid entries every version that lock-respecting writers install passes validation |
| LedgerDecisions.ToolExists | scripts/upstream_actions.py:180-193 | What the decision theorems ask of loading, merging and dumping can be met, whatever the writers record |
| Patch.LinesAgree | scripts/upstream_actions.py:48 | Without lone CRs `splitlines` and LF-terminated lines coincide |
| Patch.ConcatSplitParts | scripts/upstream_actions.py:25 | Splitting a patch into per-file parts loses no byte |
| PatchParts.PartsBeginAt | scripts/upstream_actions.py:25 | A part begins exactly where a later line of the patch starts with the words diff --git |
| PatchParts.SplitInvertsJoin | scripts/upstream_actions.py:25 | Nonempty parts that are cut exactly there come back when their concatenation is split |
| PatchParts.HeaderEnds | scripts/upstream_actions.py:47-51 | A part's header goes up to the first line that starts with @@ or GIT binary patch |
| PatchParts.IndexLinesGo | scripts/upstream_actions.py:52-53 | Of a header exactly the lines that start with index are dropped, and none in a binary part |
| PatchParts.BinaryMeans | scripts/upstream_actions.py:30 | A part is binary exactly if it holds a line GIT binary patch after its first line |
| PatchParts.ExemptMeans | scripts/upstream_actions.py:39-44 | A part is a README part exactly if a --- or +++ line above its first hunk names a README |
| PatchParts.PathNamed | scripts/upstream_actions.py:42-43 | The path named is the rest of the line without the quotes around it or a tab after it |
| Patch.AdaptPart | scripts/upstream_actions.py:47-57 | The line loop with its payload flag computes the recursive adaptation of the part's lines |
| Patch.AdaptInTwo | scripts/upstream_actions.py:48-57 | Header and payload are adapted separately, split at the first payload line |
| Patch.HeaderLines | scripts/upstream_actions.py:52-57 | The header loses its index lines and nothing else, unless the part is binary |
| Patch.BinaryPayloadVerbatim | scripts/upstream_actions.py:52-57 | A binary payload passes byte for byte |
| Patch.RawPart | scripts/upstream_actions.py:31-57 | A binary or undecodable part keeps its payload bytes; only its header changes |
| Patch.TextPayloadLines | scripts/upstream_actions.py:52-57 | A text payload gives one output line per line, each with the same marker byte and line end |
| Patch.TextPart | scripts/upstream_actions.py:47-58 | Joined again, the output of a text part, with or without hunks, has the expected lines: rebranded header without index lines, then one line per payload line with its marker and end, so hunk counts stay valid |
| Patch.KeepsEveryLine | scripts/upstream_actions.py:52-53 | All pieces of a non-binary payload come through if and only if none of them starts with the index prefix |
| Patch.LoneCrLosesBytes | scripts/upstream_actions.py:48-53 | Counterexample: one added line with a lone CR loses the rest of its text and its line end |
| PatchLines.HunksSurviveExactly | scripts/upstream_actions.py:48-57 | A text payload of hunk lines, lone CRs or not, keeps number, markers and ends of its LF lines if and only if no piece that `splitlines` makes both starts with the index prefix and carries an LF |
| PatchLines.PiecesOfLine | scripts/upstream_actions.py:48 | The pieces that `splitlines` makes of a text are those of its LF lines, one line after the other |
| PatchLines.LfsKept | scripts/upstream_actions.py:52-57 | Every LF of a text payload reaches the output, except those of dropped pieces |
| PatchLines.WarnedIsVerbatim | scripts/upstream_actions.py:37-57 | A warning is given about a part exactly when its payload passes byte for byte instead of being rebranded |
| PatchLines.ToolPatch | scripts/upstream_actions.py:23-58 | With the tool's own tables, on any patch without lone CRs, binary, undecodable, README and hunkless parts included, the LF lines of the output are the rebranded header lines that stay and one line per payload line, part by part |
| Patch.TablesInUse | scripts/upstream_branding.py:5-15 | The tool's own replacement tables satisfy what the part theorems ask of a table |
| Patch.AdaptPatch | scripts/upstream_actions.py:23-58 | The whole patch is the adapted parts in order, with an empty content table for parts whose file headers name a README, and the warnings in order |
| Patch.HunksNameNoFile | scripts/upstream_actions.py:39-44 | Whether a part is a README part depends only on the text above its first hunk |
| OfferNewest.StepInv | cmd/foxxycode/serve.go:362-370 | Every step of the offering loop or the reader keeps the hand-off invariant when offers are serialized |
| OfferNewest.NewestArrives | cmd/foxxycode/serve.go:306-317 | The reader sees a strictly increasing subsequence of the offers, and once no offer is running the newest one is in the slot or was received last |
| OfferNewest.TwoRounds | cmd/foxxycode/serve.go:356-370 | An offer is never blocked, takes out only older values, and sends at the latest in its second select round |
| OfferNewest.OverlapDropsNewest | internal/session/config_observers.go:19-22 | Why the hypothesis is there: in a run that breaks the promise that replacements are published one at a time, the newest offer is lost |

## Left out

- Running git, creating worktrees, writing bundles and reports, Markdown output and argument parsing: results of git are inputs.
- The inside of `git merge-file` and the marker-size and marker-count logic of `merge_text`: the merge is a function parameter with three laws.
- YAML and JSON loading, regex engines and UTF-8 decoding: decoding is a function parameter, "is a README name" and "is UTF-8" are predicates.
- Patch.AdaptPatch: the test of one path against the README name pattern is the predicate `readme`; which paths are tested is modelled.
- BuildPreview.BuildPreview: keeps only the merged candidates in the store, not the per-side input artifacts, which nothing reads back.
- Waves.BuildWaves: does not model the tags, merges, subjects, file counts, divergences and pull requests listed per wave, nor `tags_in`; tagged commits are an input set.
- Accounting.Scan: does not model the files, mappings and risks sections of the scan report.
- Checkout.WorkingTree.Remove: does not model pruning the repository root itself, which git's own metadata directory keeps nonempty.
- Apply.ApplyPreview: does not model the report's counts or symbolic links beyond the refusal of their rows; permission bits are the two regular git modes. Of the errors of the file system only those are modelled that a file or a directory in the way causes.
- LedgerExits.LeftBehind: does not model a signal between a system call and the assignment of its result, a crash that leaves a stale lock behind, or a loss of the directory itself.
- Ledger.ValidateLedger: does not model the wording of the messages; a document error is one constructor, an entry error carries the entry's number.
- The registry and marker heuristics of the risk, obligation, rebranding and verify commands: string matching with no invariant.
- The rest of `cmd/foxxycode`, and `scripts/build.py` and the example, capture and bench programs: plumbing.
