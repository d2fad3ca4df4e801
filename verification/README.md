# ContextPatch in Dafny

ContextPatch edits files, trees and Git repositories on behalf of a caller who may be interrupted, raced or
mistaken. Its guarantees are of one kind: whatever happens in between, an edit is made to exactly what was
checked, a listing or a diff says exactly what is there, and evidence of what was begun is not lost. This
project models the code that carries those guarantees and proves them.

| file | what it models |
|---|---|
| `Diff.dfy`, `DiffRender.dfy` | the longest-common-subsequence diff, its rendering and the replacement preview |
| `Utf8.dfy`, `LineCounter.dfy`, `FileRead.dfy` | UTF-8 by RFC 3629, the chunked line counter, the streaming range reader |
| `WriterProtocol.dfy`, `WriterInvariant.dfy`, `WriterRefinement.dfy`, `WriterRuns.dfy`, `WriterCollision.dfy` | replacement, mode change and creation as an interleaved protocol over names, inodes and locks |
| `DirectoryListing.dfy`, `ListingMeaning.dfy`, `Lexicographic.dfy` | the bounded breadth-first listing and what it lists |
| `Inodes.dfy`, `DiskSpec.dfy`, `Removal.dfy`, `Disk.dfy` | inodes, walks from a descriptor, and the recursive removal over them while names of roots are bound anew |
| `RootedTree.dfy`, `GeneratedDelete.dfy`, `GeneratedApply.dfy` | the same root as a tree of paths, and planning and applying a generated-path delete on it |
| `Numerals.dfy`, `Json.dfy`, `Receipt.dfy`, `ReceiptBudget.dfy`, `ReceiptText.dfy`, `ReceiptBatch.dfy`, `ReceiptRuns.dfy` | the receipt journal: records and the JSON lines they are kept as, fold, rotation, reserved batches, and runs of many processes |
| `GitState.dfy`, `GitCommit.dfy` | the NUL-separated status parsers and the commit workflow |
| `Capture.dfy` | bounded capture of process output and redaction |
| `Base64.dfy` | the base64 decoder against RFC 4648 |
| `Provenance.dfy` | the worktree fingerprint |

`dafny verify dfyconfig.toml` checks everything.

Two ways of modelling recur. Code that changes things step by step is a method (or a class) proved against a
specification function, and the promises are lemmas about that function. Code that other processes can
interrupt is a state machine with one step per system call or record, and the promises are invariants and
statements about every run.

What does not hold as the code's comments put it is stated as an if-and-only-if, with a concrete failing case
beside it:

* the writer protocol is safe exactly when no caller's target is spelled like a temporary file
  (`WriterCollision.SafeExactlyForOrdinaryTargets`; `WriterCollision.TempTargetLosesUpdate`);
* a generated delete may remove a tracked path exactly when that is a directory with only directories below it
  (`GeneratedApply.DeleteRemoves`; `GeneratedApply.HollowTrackedGoes`);
* a scoped commit that nothing disturbs is refused exactly when `git add` of the requested paths takes another
  dirty path along (`GitCommit.Repository.CommitScopedPaths`; `GitCommit.ReplacedFileIsRefused`), and a prefix
  commit exactly when a tracked file gave way to a directory of which the prefixes select only a part
  (`GitCommit.Repository.CommitPrefixes`; `GitCommit.ReplacedFilePrefixIsRefused`);
* an exact commit that nothing disturbs is refused exactly when a pathspec matches nothing or a staged change was
  reverted in the worktree, and leaves behind exactly the rename sources that exist again as untracked files
  (`GitCommit.ExactVerifies`; `GitCommit.StagedDeletionIsRefused`, `GitCommit.RevertedChangeIsRefused`,
  `GitCommit.RecreatedSourceIsLeft`);
* rotation folds to the same receipts exactly when every settle record with the last word on a receipt names an
  outcome (`Receipt.RotationExact`; `Receipt.RotationForgets`);
* base64 text that is accepted is canonical exactly when its spare bits are zero (`Base64.CanonicalIff`;
  `Base64.AcceptedButNotCanonical`);
* what a commit takes up is what the worktree held at planning exactly when nobody changed that content before
  staging, nor the index after it: the comment at `crates/core/src/git/commit.rs:319-321` says that the exact
  verification catches content the caller never reviewed, but it compares sets of paths
  (`GitCommit.Repository.CommitExact`; `GitCommit.UnreviewedContentIsCommitted`);
* a recursive removal is exact whatever names are bound to while it runs exactly when its root is open: the comment
  at `crates/core/src/fs/rooted.rs:62-69` says that a root given by its path has its name resolved once and is as safe
  as an open one, but the name is resolved once per operation (`Removals.ExactExactlyIfAnchored`;
  `Removals.NamedRootIsRedirected`);
* the manifest tells all dirty states apart exactly unless a path may hold both a tab and a newline
  (`Provenance.InjectiveUnlessBoth`; `Provenance.NameSpellsRecord`).

## Model

| member | source | states |
|---|---|---|
| Diff.LcsBounds | crates/core/src/patch/diff.rs:101-113 | The recurrence of the table bounds the length of every common subsequence. |
| Diff.KeptIsCommon | crates/core/src/patch/diff.rs:94-99 | What a script keeps is common to both sides, and kept lines and changes account for every line of both. |
| Diff.AttainingLcsIsOptimal | crates/core/src/patch/diff.rs:101-140 | A script that keeps as many lines as the table's corner says is a shortest edit script, and what it keeps a longest common subsequence. |
| Diff.FillLengths | crates/core/src/patch/diff.rs:101-113 | Cell (i, j) of the filled table is the longest common length of the two suffixes. |
| Diff.DiffScript | crates/core/src/patch/diff.rs:101-140 | The script turns old into new, keeps a longest common subsequence, no script has fewer removals and additions, and no addition comes right before a removal. |
| DiffRender.SplitLinesIsUnique | crates/core/src/patch/diff.rs:86-92 | The lines are the only nonempty pieces, newline at most last, that concatenate to the text. |
| DiffRender.SplitOfJoin | crates/core/src/patch/diff.rs:86-92 | Splitting undoes concatenation of any well-formed list of lines. |
| DiffRender.PushScript | crates/core/src/patch/diff.rs:142-148 | Each operation appends its sign, its line and a newline where the line has none. |
| DiffRender.UnifiedFullFileDiff | crates/core/src/patch/diff.rs:63-84 | The text names the file twice, gives the numbers of old and new lines in decimal, and its signed lines hold the old text but for additions and the new one but for removals, with as few of either as possible. |
| DiffRender.BodySplitsPerOperation | crates/core/src/patch/diff.rs:142-148 | Cutting a rendered body at newlines gives back one line per operation, whatever the lines hold. |
| DiffRender.DiffDecodes | crates/core/src/patch/diff.rs:63-148 | Dropping additions recovers the old text and dropping removals the new one, up to a final newline; the hunk counts are the recovered line counts. |
| DiffRender.ShownDecodes | crates/core/src/patch/diff.rs:63-148 | What is shown reads back: file name, both line counts, both texts, told by the characters of the text alone. |
| DiffRender.MatchesAreMaximal | crates/core/src/patch/diff.rs:34-50 | The reported count is the largest number of non-overlapping occurrences, and the first match the leftmost one. |
| DiffRender.OneMatchMeans | crates/core/src/patch/diff.rs:34-50 | Exactly one match means that every occurrence starts inside that one. |
| DiffRender.MatchCases | crates/core/src/patch/diff.rs:34-50 | No match, one match and many matches, told by occurrences alone. |
| DiffRender.OccursMeans | crates/core/src/patch/diff.rs:34-50 | An occurrence is a way to write the text as something, the pattern, and something else. |
| DiffRender.PreviewExactReplacement | crates/core/src/patch/diff.rs:18-61 | Which refusal for which text, and otherwise such a diff to the text with the sole match replaced. |
| Utf8.ValidIffWellFormed | crates/core/src/fs/guarded_file.rs:337-401 | The validator the counter calls accepts exactly the encodings of scalar values by RFC 3629. |
| Utf8.CutShortIff | crates/core/src/fs/guarded_file.rs:355-389 | An error without a length means exactly: a proper, nonempty prefix of one encoded character. |
| Utf8.ErrorIsLongestStart | crates/core/src/fs/guarded_file.rs:355-389 | The length given with an error is that of the longest start of a character there, or one. |
| Utf8.ValidUpTo | crates/core/src/fs/guarded_file.rs:355-389 | The bytes before the reported failure are valid and the failure starts right after them. |
| Utf8.ValidThen | crates/core/src/fs/guarded_file.rs:355-389 | Validity composes: after valid bytes the verdict is that on the rest, shifted. |
| Utf8.BrokenStays | crates/core/src/fs/guarded_file.rs:355-389 | Bytes that are broken stay broken whatever follows. |
| LineCounter.LinesFromNewlines | crates/core/src/fs/guarded_file.rs:391-400 | The count kept in the fields is the number of lines of the text. |
| LineCounter.GrowPending | crates/core/src/fs/guarded_file.rs:355-389 | One more byte on an incomplete character: complete, still incomplete, or broken, as the whole says. |
| LineCounter.SettlesAfterValid | crates/core/src/fs/guarded_file.rs:355-389 | Validating a chunk after valid bytes gives the verdict on everything seen. |
| LineCounter.Utf8LineCounter.TakePending | crates/core/src/fs/guarded_file.rs:355-375 | Completing the character a chunk boundary cut loses and repeats no byte. |
| LineCounter.Utf8LineCounter.Update | crates/core/src/fs/guarded_file.rs:355-389 | The fields agree with the whole text seen so far: what is pending is an incomplete prefix of one character. |
| LineCounter.Utf8LineCounter.Finish | crates/core/src/fs/guarded_file.rs:391-401 | The line count if all that was seen is UTF-8, nothing otherwise. |
| LineCounter.CountChunks | crates/core/src/fs/guarded_file.rs:337-401 | For every way of cutting a byte string into chunks, the answer is that for the whole string. |
| FileRead.WindowGrows | crates/core/src/fs/guarded_file.rs:128-168 | What a chunk contributes to the requested range is exactly its overlap with it. |
| FileRead.ReadIsFaithful | crates/core/src/fs/guarded_file.rs:128-168 | Reads of an unchanging file feed the digest its bytes once and in order, and an early end means it changed. |
| FileRead.Stream | crates/core/src/fs/guarded_file.rs:128-168 | For every schedule of short reads, the digest, the range and the counter have seen what was read. |
| FileRead.ReadRangeWithDigest | crates/core/src/fs/guarded_file.rs:110-191 | The bytes from offset to the end of the range, the digest and line count of the whole file; when it refuses. |
| FileRead.ReadRange | crates/core/src/fs/guarded_file.rs:200-247 | The same bytes without the digest, under every schedule of short reads. |
| WriterInvariant.StepKeepsInv | crates/core/src/fs/guarded_file.rs:661-791 | Every system call of every writer, failure, death or permitted outside change keeps the invariant. |
| WriterInvariant.RenameKeeps | crates/core/src/fs/guarded_file.rs:769-778 | One writer's rename disturbs no other writer between its lock and its end. |
| WriterInvariant.RevalidateStep | crates/core/src/fs/guarded_file.rs:267-279 | After revalidation the path names the inode the writer has locked and checked, and the invariant keeps that so until it publishes. |
| WriterInvariant.CheckChmodStep | crates/core/src/fs/executable.rs:73-90 | The mode writer's check under the lock keeps the invariant, whether there is something to change or not. |
| WriterProtocol.TriesHundredNames | crates/core/src/fs/guarded_file.rs:1029-1060 | As long as fewer than a hundred names have been tried there is a next try, whatever takes the names; then there is none. |
| WriterRefinement.RenameIsEdit | crates/core/src/fs/guarded_file.rs:741-791 | A rename is, to readers, one whole replacement of the checked bytes that keeps the mode. |
| WriterRefinement.SetModeIsEdit | crates/core/src/fs/executable.rs:90-104 | A mode change is one edit of an accepted file: all three execute bits become what was asked, where they were not; every other bit and the contents stay. |
| WriterRefinement.ModeMeans | crates/core/src/fs/executable.rs:147-151 | The new mode has the execute bits asked for and all others as before; it is the old one exactly if the file has them already. |
| WriterRefinement.LinkIsEdit | crates/core/src/fs/guarded_file.rs:701-723 | A link publishes the complete text under a name that was absent. |
| WriterRefinement.UnseenStep | crates/core/src/fs/guarded_file.rs:741-791 | No other step of any writer is visible under an ordinary name. |
| WriterRefinement.StepIsGood | crates/core/src/fs/guarded_file.rs:741-791 | When a change takes effect the path still names the inode the writer opened, holding what it checked; a file with a second name gets no mode change; a writer unlinks only its own temporary file. |
| WriterRefinement.StepKeepsReports | crates/core/src/fs/executable.rs:73-131 | Success is reported only for a change that took effect, or for an accepted file whose execute bits are as asked; a failed replacement changed nothing. |
| WriterRuns.RunsAreSafe | crates/core/src/fs/mutation_lock.rs:65-141 | All of that in every run: any number of writers, any interleaving, stops and failures anywhere. No update is lost. |
| WriterRuns.AtMostOneCreation | crates/core/src/fs/guarded_file.rs:661-738 | In every run in which no outside process removes the name, at most one of the creations racing for it succeeds, and none if it existed. |
| WriterRuns.NothingIsTorn | crates/core/src/fs/guarded_file.rs:661-791 | In every run in which no outside process writes files or binds the name, it holds what it held at the start or the complete bytes of one request for it. |
| WriterCollision.TempTargetLosesUpdate | crates/core/src/fs/guarded_file.rs:1029-1060 | For every target spelled like a temporary file there is a run that removes a published replacement. |
| WriterCollision.SafeExactlyForOrdinaryTargets | crates/core/src/fs/guarded_file.rs:1029-1060 | Writers remove only their own temporary files in every run if and only if no target is spelled like one. |
| DirectoryListing.RetainIsTake | crates/core/src/fs/directory.rs:351-361 | Keeping the smallest in a bounded heap is taking the start of the sorted sequence. |
| DirectoryListing.ReadDirectoryEntries | crates/core/src/fs/directory.rs:198-302 | The first children in byte order, whatever order the system lists them in, and whether there are more. |
| DirectoryListing.Turn | crates/core/src/fs/directory.rs:120-142 | One turn of the queue against the listing still to come: cut inside this directory, or go on. |
| DirectoryListing.RunQueue | crates/core/src/fs/directory.rs:110-144 | The bounded walk ends, is the start of the unbounded walk, and is truncated exactly when that is longer. |
| DirectoryListing.WalkIsLevelOrder | crates/core/src/fs/directory.rs:110-144 | The queue visits the tree level by level. |
| DirectoryListing.ListDirectory | crates/core/src/fs/directory.rs:101-144 | For every bound, exactly the start of the unbounded listing. |
| ListingMeaning.ListingHolds | crates/core/src/fs/directory.rs:225-302 | An entry is listed exactly when a trail of names, none of them `.` or `..` or hidden unless asked for, leads to it through real directories within the depth; its kind is the node's own, a link's never that of its target. |
| ListingMeaning.LevelsInOrder | crates/core/src/fs/directory.rs:120-142 | The listing goes by depth, then by path in byte order, without repetition. |
| ListingMeaning.InOrderUnique | crates/core/src/fs/directory.rs:120-142 | Two sequences in listing order with the same members are equal. |
| ListingMeaning.ListingIsDetermined | crates/core/src/fs/directory.rs:101-144 | A sequence is the unbounded listing exactly if its members are what trails within the depth reach and it is in order. |
| ListingMeaning.NothingBelowLinks | crates/core/src/fs/directory.rs:318-341 | Every name on the way to a listed entry leads to a real directory, though links may lead to directories too. |
| RootedTree.UnderSortsAfter | crates/core/src/git/restore.rs:359-360 | A path sorts after everything it is under, so reverse order clears children first. |
| DiskSpec.ParentIsWalk | crates/core/src/fs/rooted.rs:443-482 | Opening the parents one by one without following ends where the walk through real directories does, or nowhere. |
| Disks.Disk.ListNames | crates/core/src/fs/rooted.rs:683-738 | The names of the directory's entries in order, whatever order the system lists them in. |
| Disks.Disk.ReadDir | crates/core/src/fs/rooted.rs:635-675 | Each entry of the directory once with its own kind, by name; refused for anything but a real directory. |
| Disks.Disk.UnlinkAt | crates/core/src/fs/rooted.rs:615-632 | Exactly one name goes, of a file or link or, with the flag, of an empty directory. |
| DiskSpec.EntryGoes | crates/core/src/fs/rooted.rs:319-324 | One turn of the recursive removal meets the entry that was listed and leaves the state the next turn expects. |
| Disks.Disk.RemoveDirAll | crates/core/src/fs/rooted.rs:316-326 | Ends, and does operation by operation what the run under the given schedule of names does; with an open root, or a name that stays bound, removes exactly the name and the contents of the directories below it. In every case files and links keep what they hold. |
| Removals.RemoveRunIsExact | crates/core/src/fs/rooted.rs:316-326 | A run whose root nobody redirects removes the whole subtree and nothing else, and fails only where there is no directory. |
| DiskSpec.EverythingElseIsKept | crates/core/src/fs/rooted.rs:316-326 | Only the directory that held the name and real directories reached through it lose entries; hard-linked files, targets of links and everything outside are unchanged. |
| DiskSpec.RemainingWalks | crates/core/src/fs/rooted.rs:316-326 | Exactly the walks through the removed name end; all others lead where they led. |
| DiskSpec.DetachedChanges | crates/core/src/fs/rooted.rs:316-326 | What changes on disk are directories that a walk from the root reaches. |
| Removals.NamedRootIsRedirected | crates/core/src/fs/rooted.rs:98-116 | A run during which the root's name is bound anew succeeds, leaves what it was to remove, and removes a file and a directory under the other root instead. |
| Removals.ExactExactlyIfAnchored | crates/core/src/fs/rooted.rs:62-69 | For every disk, path, moment and schedule of names the removal is exact, if and only if the root is open. |
| RootedTree.UnderIsPrefix | crates/core/src/fs/rooted.rs:659-661 | One path text is under another exactly if its components begin with the other's. |
| RootedTree.ViewShows | crates/core/src/fs/rooted.rs:635-675 | Every disk has a tree of paths below a root. |
| RootedTree.ViewOfDetached | crates/core/src/fs/rooted.rs:316-326 | A removal on disk is, in the tree of paths, the removal of a path with all below it. |
| RootedTree.BlockedIs | crates/core/src/fs/rooted.rs:443-482 | The walk to the parent fails exactly if something other than a directory is above the path. |
| RootedTree.Root.EntryKind | crates/core/src/fs/rooted.rs:128-165 | What the inode at the end of the walk is, a link being a link; its absence; or a parent that is not a directory. |
| RootedTree.Root.ReadDir | crates/core/src/fs/rooted.rs:339-355 | Each child once with what its own inode is; refused for anything but a directory. |
| RootedTree.Root.RemoveFile | crates/core/src/fs/rooted.rs:285-297 | Only the named entry goes, a link included, a directory never; what that means for the inodes. |
| RootedTree.Root.RemoveDir | crates/core/src/fs/rooted.rs:299-310 | Exactly an empty directory goes. |
| RootedTree.Root.RemoveDirAll | crates/core/src/fs/rooted.rs:316-326 | The path goes with all below it, on disk as in the tree. |
| GeneratedDelete.CollectUntrackedFilesInDir | crates/core/src/git/restore.rs:397-426 | Every regular file below, or a refusal exactly if something tracked, linked or special is below. |
| GeneratedDelete.CollectEmptyDirs | crates/core/src/git/restore.rs:441-460 | Every directory from here down with only directories below it, and whether this is one. |
| GeneratedDelete.PlanDeleteGeneratedPrefix | crates/core/src/git/restore.rs:307-355 | Exactly when a plan is made, exactly which files and directories it names, and that they are at most five thousand. |
| GeneratedDelete.PlanIsOwn | crates/core/src/git/restore.rs:397-426 | Every planned file is a regular file on disk, and nothing tracked, linked or special is below a directory that goes whole. |
| GeneratedApply.StillThere | crates/core/src/git/restore.rs:374-388 | In reverse order no directory has gone before its turn. |
| GeneratedApply.AlreadyEmpty | crates/core/src/git/restore.rs:374-388 | In reverse order a directory that was not matched outright is empty at its turn. |
| GeneratedApply.DeleteDirectories | crates/core/src/git/restore.rs:374-388 | On a tree where the plan holds every directory of it goes. On any tree a directory that was not matched goes only while empty, and only a matched one is removed whole. |
| GeneratedApply.ApplyDeleteGeneratedPrefix | crates/core/src/git/restore.rs:362-389 | The exact tree an undisturbed apply leaves; on any tree only planned paths and what is below matched directories is gone, and after a success all planned files and matched directories are. |
| GeneratedApply.PlanIsReady | crates/core/src/git/restore.rs:307-389 | Every plan meets what apply needs. |
| GeneratedApply.DeleteRemoves | crates/core/src/git/restore.rs:307-460 | Every planned path goes, of regular files only the planned ones, nothing outside the prefixes, and a tracked path exactly if it is a hollow directory under a prefix. |
| GeneratedApply.DeleteGeneratedPrefix | crates/core/src/git/restore.rs:307-389 | From plan to disk: refused exactly when the plan is, and otherwise exactly that is gone from the tree; on the inodes, only directories reached from the root lose names, and only names that spell a planned path or one below a matched directory. |
| GeneratedApply.GoneIsLost | crates/core/src/git/restore.rs:362-389 | What goes from the tree of paths is, on the inodes, the loss of just those names. |
| GeneratedApply.HollowTrackedGoes | crates/core/src/git/restore.rs:441-460 | A tracked directory without files is planned and removed with its prefix. |
| Receipt.AllFromPath | crates/core/src/fs/receipt.rs:510-572 | The two loops over lines and order compute the fold. |
| Receipt.RotationKeeps | crates/core/src/fs/receipt.rs:215-234 | A rotated journal folds to the interrupted receipts, in order, each as its begin record tells it. |
| Receipt.UnsettledAre | crates/core/src/fs/receipt.rs:215-219 | The interrupted receipts are exactly those the fold leaves without an outcome. |
| Receipt.RotationExact | crates/core/src/fs/receipt.rs:215-234 | That is the old fold's interrupted part exactly if every settle record with the last word names an outcome. |
| Receipt.RotationForgets | crates/core/src/fs/receipt.rs:215-234 | A journal on which it is not. |
| Receipt.BeginAppends | crates/core/src/fs/receipt.rs:325-349 | A new begin adds one interrupted receipt at the end. |
| Receipt.SettleRemoves | crates/core/src/fs/receipt.rs:351-362 | A settle removes exactly its receipt from the interrupted ones. |
| Receipt.UnsettledIsEvidence | crates/core/src/fs/receipt.rs:510-572 | The fold's interrupted receipts are what was begun and not settled since. |
| Receipt.EvidenceMeans | crates/core/src/fs/receipt.rs:510-572 | A receipt is evidence exactly if a begin record opened it and no later settle names it. |
| ReceiptBudget.RenderIdFits | crates/core/src/fs/receipt.rs:332-334 | A generated id has at most 58 plain bytes, within the 80 reserved. |
| ReceiptBudget.RenderIdInjective | crates/core/src/fs/receipt.rs:332-334 | Ids differ unless moment, process and sequence number are all the same. |
| ReceiptBudget.RecordsFitTemplates | crates/core/src/fs/receipt.rs:262-293 | No begin or settle record under a generated id with a hexadecimal digest is longer than its template, for all outcomes and moments. |
| ReceiptBudget.FileBatchReservation | crates/core/src/fs/receipt.rs:262-293 | The sum over the paths of both templates, as a number. |
| ReceiptBudget.ReservationIs | crates/core/src/fs/receipt.rs:262-293 | For each path 565 bytes besides tool and path as JSON writes them. |
| Json.ObjectReads | crates/core/src/fs/receipt.rs:177-205 | Reading a flat object back by RFC 8259 gives its members, whatever bytes they hold. |
| Json.ObjectIsOneLine | crates/core/src/fs/receipt.rs:177-205 | No line break and no other control character stands in it. |
| ReceiptText.LineReadsBack | crates/core/src/fs/receipt.rs:519-566 | What a line is read as is the record it was written for. |
| ReceiptText.OutcomesRead | crates/core/src/fs/receipt.rs:39-47 | A batch's settle is read with its outcome as one of three words, its digest as that after, and its moment. |
| ReceiptText.FileReadsBack | crates/core/src/fs/receipt.rs:510-572 | A journal file is read as the records appended to it, in order. |
| ReceiptText.BytesAreCounted | crates/core/src/fs/receipt.rs:207-213 | The bytes the budget counts are those of that file. |
| ReceiptBatch.JournalFile.Rotate | crates/core/src/fs/receipt.rs:215-234 | The file becomes one begin record per interrupted receipt. |
| ReceiptBatch.JournalFile.BeginRecord | crates/core/src/fs/receipt.rs:364-377 | Whether or not the journal is rotated first, every interrupted receipt stays reported with its evidence, in order, and the new one comes last. |
| ReceiptBatch.JournalFile.SettleRecord | crates/core/src/fs/receipt.rs:466-478 | Exactly the settled receipt is no longer reported as interrupted, and it has this outcome and evidence from then on. |
| ReceiptBatch.JournalFile.ReserveFileBatch | crates/core/src/fs/receipt.rs:295-323 | Succeeds exactly if the batch fits as the journal is or once rotated; what it leaves. |
| ReceiptBatch.FileReceiptBatch.BeginFile | crates/core/src/fs/receipt.rs:438-454 | Only the next reserved path, one record, and the journal within its limit for a caller that settles only what was begun, once each. |
| ReceiptBatch.FileReceiptBatch.SettleFile | crates/core/src/fs/receipt.rs:456-463 | One settle record, and the same limit. |
| ReceiptBatch.BeginFileBatch | crates/core/src/fs/receipt.rs:408-435 | Exactly when a batch is admitted. |
| ReceiptBatch.DisciplinedIsOrderly | crates/core/src/fs/receipt.rs:396-464 | Settling only what the batch began, each entry once, never settles more than was begun, and all ids have the usual size. |
| ReceiptBatch.DisciplinedStaysWithin | crates/core/src/fs/receipt.rs:396-464 | Through every prefix of a batch of such a caller the journal stays within `MAX_JOURNAL_BYTES`. |
| ReceiptRuns.StepKeeps | crates/core/src/fs/receipt.rs:215-377 | Locking, rotating, appending, reserving and stopping anywhere keep the evidence and the batch intact. |
| ReceiptRuns.NothingIsForgotten | crates/core/src/fs/receipt.rs:325-377 | In every run of many processes, restarted ones under the same process id included, a receipt is reported interrupted exactly if it was begun and not settled since, with its evidence and in begin order. |
| ReceiptRuns.BeginIsReported | crates/core/src/fs/receipt.rs:325-349 | In every run a begin adds its receipt, with its own evidence, after the interrupted ones. |
| ReceiptRuns.SizesAreKnown | crates/core/src/fs/receipt.rs:236-249 | In every run a begin rotates a journal only if that is past its limit, and no batch is empty. |
| ReceiptRuns.AdmittedIfItFits | crates/core/src/fs/receipt.rs:295-323 | In every run a batch is admitted exactly if the journal, or else its rotation, has room for all of it within 512 KiB. |
| ReceiptRuns.BatchesStayWithin | crates/core/src/fs/receipt.rs:396-464 | In every run no rotation and no foreign record falls into a batch, and its budget holds, with no assumption on ids. |
| ReceiptRuns.LateSettleMatches | crates/core/src/fs/receipt.rs:351-377 | A settle after any number of rotations still finds its receipt and removes no other. |
| GitState.SplitOfJoin | crates/core/src/git/state.rs:281-285 | Splitting undoes terminating nonempty pieces with NUL. |
| GitState.PorcelainRoundTrip | crates/core/src/git/state.rs:140-156 | Reading back any records as Git writes them, a second path exactly after a rename or copy in either column, gives the same records. |
| GitState.RenameTakesOriginal | crates/core/src/git/state.rs:288-318 | After an `R` or `C` in either column the next piece is the original: both paths are reported, and as a rename source that of `R` alone. |
| GitState.OthersStandAlone | crates/core/src/git/state.rs:288-318 | After any other columns the next piece is a record of its own. |
| GitState.RecordsAreFaithful | crates/core/src/git/state.rs:288-318 | Whatever parses is what those records are written as. |
| GitState.AcceptsExactlyRecords | crates/core/src/git/state.rs:288-318 | Output has the shape exactly if it can be written from well-formed records. |
| GitState.ParsePorcelainPaths | crates/core/src/git/state.rs:140-156 | The parser loop answers as the records say. |
| GitState.ParsePorcelainRenameSources | crates/core/src/git/state.rs:166-182 | The same for rename sources. |
| GitState.ParseUntrackedPorcelainPaths | crates/core/src/git/state.rs:188-205 | The same for untracked paths. |
| GitState.ParseUntrackedAndIgnoredPorcelainPaths | crates/core/src/git/state.rs:211-232 | The same for untracked and ignored paths. |
| GitState.ParseNameStatusPaths | crates/core/src/git/state.rs:244-266 | The same for the name-status layout. |
| GitState.PathsAreBothSides | crates/core/src/git/state.rs:140-156 | Both sides of every record, and a refusal exactly if one of them is not UTF-8. |
| GitState.SourcesAreRenameOriginals | crates/core/src/git/state.rs:166-182 | Exactly the originals of renames, not those of copies. |
| GitState.UntrackedAreUntracked | crates/core/src/git/state.rs:188-205 | Exactly the paths marked with two question marks. |
| GitState.LeftOutAreTrimmed | crates/core/src/git/state.rs:211-232 | Those and the ignored ones, trailing separators trimmed. |
| GitState.NameStatusRoundTrip | crates/core/src/git/state.rs:244-266 | Both sides of every change of the name-status layout. |
| GitCommit.Repository.GitAdd | crates/core/src/git/commit.rs:47-52 | What `git add` does: all covered paths or, if a pathspec matches nothing, none. |
| GitCommit.Repository.StagePaths | crates/core/src/git/commit.rs:299-317 | Rename sources are not named to `git add`. |
| GitCommit.Repository.PlanCommitExact | crates/core/src/git/commit.rs:161-186 | Planned exactly if the paths are distinct and just those that are not the same in HEAD, index and worktree. |
| GitCommit.Repository.PlanCommitScoped | crates/core/src/git/commit.rs:189-224 | Planned exactly if the paths are distinct and changed, something is, and the index is HEAD; what will remain changed. |
| GitCommit.Repository.PlanCommitPrefix | crates/core/src/git/commit.rs:227-265 | The changed paths under the prefixes, at most five thousand and at least one, with the index as HEAD. |
| GitCommit.Repository.CommitPartial | crates/core/src/git/commit.rs:347-376 | With anything happening before and after staging, a commit changes HEAD on exactly the planned paths; it takes up what the worktree held at planning exactly if nobody changed that. |
| GitCommit.Repository.CommitScopedPaths | crates/core/src/git/commit.rs:189-414 | From plan to HEAD; undisturbed it goes through exactly if the paths stand alone, and leaves the rest dirty. |
| GitCommit.Repository.CommitPrefixes | crates/core/src/git/commit.rs:227-414 | The same for prefixes. |
| GitCommit.Repository.CommitExact | crates/core/src/git/commit.rs:322-344 | The same for an exact commit, from any index: the paths, that no other path is left changed, when it goes through undisturbed, what it leaves behind, and exactly when the content committed is that at planning. |
| GitCommit.StagingVerifies | crates/core/src/git/commit.rs:347-376 | From a clean index staging verifies exactly if no other dirty path is taken along. |
| GitCommit.PrefixesStandAlone | crates/core/src/git/commit.rs:363-376 | For prefixes only a file partly replaced by a directory is in the way. |
| GitCommit.ReplacedFileIsRefused | crates/core/src/git/commit.rs:347-360 | A scoped commit of a file that became a directory is refused undisturbed. |
| GitCommit.ReplacedFilePrefixIsRefused | crates/core/src/git/commit.rs:363-376 | So is a prefix commit of what is now below such a file. |
| GitCommit.ExactVerifies | crates/core/src/git/commit.rs:322-344 | An undisturbed exact commit verifies exactly if every pathspec matches and no covered path was put back; what it leaves. |
| GitCommit.StagedContent | crates/core/src/git/commit.rs:299-317 | What has been staged at the planned paths is what the worktree held at planning exactly if neither that content nor, later, the index was changed. |
| GitCommit.UnreviewedContentIsCommitted | crates/core/src/git/commit.rs:319-344 | A file changed again between planning and staging passes both checks and is committed as it then is. |
| GitCommit.StagedDeletionIsRefused | crates/core/src/git/commit.rs:299-317 | A deletion staged outside a rename cannot be committed exactly. |
| GitCommit.RevertedChangeIsRefused | crates/core/src/git/commit.rs:322-344 | A staged change that was put back in the worktree cannot be committed exactly. |
| GitCommit.RecreatedSourceIsLeft | crates/core/src/git/commit.rs:299-317 | A rename source that exists again stays behind after an exact commit. |
| Capture.CaptureStream | crates/core/src/process/runner.rs:556-614 | For every schedule of reads, the whole stream up to four mebibytes, or its first four, a marker and as much of its end. |
| Capture.PushAll | crates/core/src/process/runner.rs:584-592 | The ring holds the last bytes pushed. |
| Capture.LinesSplit | crates/core/src/process/runner.rs:876-883 | Cutting a text after a newline cuts no line. |
| Capture.LinesOneByOne | crates/core/src/process/runner.rs:857-863 | A line is what stands before a line feed, less one carriage return. |
| Capture.OnlyWholeLinesAreRedacted | crates/core/src/process/runner.rs:865-896 | No capture is malformed, and what goes on to redaction are whole lines of the stream: a run of its first and a run of its last around the marker. |
| Capture.RedactCapturedOutput | crates/core/src/process/runner.rs:857-896 | Each of those lines is redacted by itself, then the text is bounded. |
| Capture.CapturedOutput | crates/core/src/process/runner.rs:556-614 | From the reads of a stream to the text shown, at most 12,000 characters: the redactions of a run of its first and a run of its last whole lines, in order, around the marker if something was cut. |
| Capture.ShownLineByLine | crates/core/src/process/runner.rs:857-863 | Unless it was shortened, the text shown consists of exactly those redactions line by line, provided none spreads over lines. |
| Capture.TruncateHeadTail | crates/core/src/process/runner.rs:898-917 | Short text unchanged, long text exactly as long as allowed with both ends kept. |
| Base64.AcceptableIff | crates/server/src/tools/common.rs:193-232 | The loops' tests amount to: whole groups of the alphabet, at most two pads, at the very end. |
| Base64.DecodeBase64 | crates/server/src/tools/common.rs:193-246 | Accepts exactly that, white space aside, and decodes group by group. |
| Base64.StripIs | crates/server/src/tools/common.rs:207-207 | Carriage return, line feed, tab and space are skipped wherever they stand, and nothing else. |
| Base64.DecodeOfEncode | crates/server/src/tools/common.rs:193-246 | Everything the encoder of RFC 4648 section 4 writes decodes to what was encoded. |
| Base64.RoundTrip | crates/server/src/tools/common.rs:193-246 | The same with white space anywhere. |
| Base64.DecodedLength | crates/server/src/tools/common.rs:223-245 | Three bytes a group, less the pads. |
| Base64.CanonicalIff | crates/server/src/tools/common.rs:223-245 | What is accepted is an encoding exactly if its spare bits are zero. |
| Base64.AcceptedButNotCanonical | crates/server/src/tools/common.rs:223-245 | Text that is accepted and is not the encoding of what it decodes to. |
| Provenance.StepIsBijection | crates/core/src/provenance.rs:121-128 | Each FNV-1a step is undone by the modular inverse of the prime. |
| Provenance.OneByteShows | crates/core/src/provenance.rs:121-128 | Payloads of one length that differ in one byte never share a hash. |
| Provenance.Combine | crates/core/src/provenance.rs:121-128 | The loop computes that hash. |
| Provenance.KnownHashes | crates/core/src/provenance.rs:42-46 | The hashes of no bytes, of "a" and of "b" are those listed for FNV-1a. |
| Provenance.KeyOrder | crates/core/src/provenance.rs:50-58 | The sort order is path, then status, then digest. |
| Provenance.CanonicalManifest | crates/core/src/provenance.rs:100-114 | The loop writes the sorted entries field by field. |
| Provenance.ManifestIgnoresOrder | crates/core/src/provenance.rs:100-114 | The manifest does not depend on the order entries are reported in. |
| Provenance.ManifestIffSameEntries | crates/core/src/provenance.rs:100-114 | Unless a line that ends inside a path holds two tabs, equal manifests mean equal entries, each as often. |
| Provenance.RecordEnds | crates/core/src/provenance.rs:100-114 | In such a manifest the first line with two tabs ends the first record. |
| Provenance.NameSpellsRecord | crates/core/src/provenance.rs:36-42 | For any two files in order there is one file, named like the first one's record and the second one's path, with the same manifest as the two. |
| Provenance.InjectiveUnlessBoth | crates/core/src/provenance.rs:36-42 | With plain statuses and digests, manifests tell all dirty states apart exactly unless paths may hold both tab and newline. |
| Provenance.PaddedNamesHash | crates/core/src/provenance.rs:134-141 | Sixteen hexadecimal digits whose value is the hash. |
| Provenance.StampsNameHashes | crates/core/src/provenance.rs:134-141 | Dirty worktrees share a stamp of sixteen characters exactly if they share a hash, and a clean one has the word `clean`. |
| Provenance.OneByteShowsInStamp | crates/core/src/provenance.rs:134-141 | Manifests that differ in one byte never share a stamp. |

## Left out

Weaker or narrower than the code:

- WriterRuns.RunsAreSafe: the parent directory is part of a name, so re-checking that a parent was not moved (`crates/core/src/fs/guarded_file.rs:794-814`) is not a step of its own; outside processes may not write a locked inode or rebind a revalidated path, as the repository's README excludes them; and every replacement takes the per-file lock, which the fixture manifest refresh (`crates/server/src/tools/fixtures.rs:603-610`) does not.
- WriterInvariant.CheckChmodStep: reading bytes and mode under the lock is one step, and the check made after the mode was set (`crates/core/src/fs/executable.rs:105-127`) is left out.
- FileRead.ReadRangeWithDigest: SHA-256 is an arbitrary function of the bytes, and file stamps are compared as numbers.
- Disks.Disk.RemoveDirAll: names of roots may be bound anew between operations, but nobody else changes directories below the roots during the removal, and input or permission errors do not occur. Inodes stay when their last name is gone.
- RootedTree.Root.EntryKind: paths are taken as normalised by the caller: an empty component or a dot is a name like any other.
- GeneratedApply.DeleteRemoves: speaks of a tree nobody changes between plan and apply; `OnlyNamedGone` holds on any tree.
- GeneratedApply.DeleteGeneratedPrefix: the root is open, or its name stays bound during the delete; `Removals.ExactExactlyIfAnchored` is about what happens otherwise.
- ReceiptRuns.NothingIsForgotten: records are appended whole, and a process draws fewer than 2^64 numbers. A process id may be used again by a process that starts at a later moment than any that id has named; clocks do not go back before their process's start. The journal begins empty.
- ReceiptText.LineReadsBack: strings are byte strings; the reader takes flat objects of strings and nulls without white space, as this program writes them, and any other line as one that does not parse.
- ReceiptBatch.JournalFile.ReserveFileBatch: byte counts are unbounded, so the overflow refusals do not occur.
- GitCommit.Repository.GitAdd: ignored files, submodules, hooks, copies reported by `git diff`, worktree renames of intent-to-add entries and `core.fileMode` are not part of the model; a pathspec covers a path and all below it.
- GitCommit.Repository.CommitPartial: outside processes may change index and worktree at any moment before the verification, and nothing between it and the commit.
- Capture.CaptureStream: the cancellation deadline is an event of the schedule instead of a clock.
- Capture.RedactCapturedOutput: what `redact_line` hides is a parameter, and bytes stand for the lossy UTF-8 text.
- Base64.DecodeBase64: shifting and or-ing disjoint six-bit fields is written as a sum.
- Provenance.CanonicalManifest: fields are byte strings; sorting is by insertion, which gives the same sequence as any sort.

Not modelled:

- The command line, the JSON-RPC transport, tool schemas, client configuration, Docker and build-tool wrappers: argument construction and table lookups.
- Exact restore and exact untracked delete (`crates/core/src/git/restore.rs:170-303`), and `evaluate_staged_scope`: each is a few set differences that the code writes down as such.
- Reading status records in `crates/core/src/provenance.rs:66-95`, which recognises renames by the first column only.
- The legacy journal folded in ahead of the current one (`crates/core/src/fs/receipt.rs:580-597`).
- Torn half-lines in the journal, power loss, non-UTF-8 file names and the non-Unix branches.
- Dry runs and confirmations, which change nothing.
- Worker permits, process spawning and timeouts.
