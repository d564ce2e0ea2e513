# MatrixCtrl, proved

MatrixCtrl administers a Matrix homeserver: it edits the Helm configuration of the server suite, restores
databases, reads Helm's releases, watches for drift and limits logins. Much of that is plain algorithm or
step protocol, and the comments beside it promise a good deal. This project models those parts in Dafny and
proves what they promise; where a promise does not hold as it is written, it says exactly when it does.

`dafny verify dfyconfig.toml` checks the whole project.

## What is modelled

| Module | What it is |
|---|---|
| `Values`, `Leaves`, `Edits`, `Dotted` | configuration trees, the edits on them, batches of edits, dotted paths |
| `YamlNodes`, `YamlEdit` | YAML mappings with their comments, as values and as nodes edited in place on the heap |
| `Merge`, `Sections`, `Migrate`, `Store`, `KeepComments` | merging files, one file per section, splitting the old files, saving a form, putting moved comments back |
| `TaskFields`, `Tasks`, `TaskPlan` | the settings page for people who do not know the chart |
| `Homeserver`, `Restore` | restoring a homeserver's database: the outside world in which every call may fail or lose its answer, and the saga that runs in it |
| `RestorePlan`, `ConfigSwap`, `Sequences` | the order of a table restore, the swap of the configuration repository, number sequences |
| `Hunks` | unified diffs |
| `ReleaseProbe`, `ReleaseMemo`, `History` | Helm's releases: the probe, the memo under interleaving, the fast history |
| `Drift`, `Coverage` | whether a hook's patch is still in effect, and whether the chart already does what it patches |
| `Ulid`, `Throttle`, `Counters`, `Maxima` | identifiers, the login limit, counters that die with their process, the largest element of a set |

Values, paths and texts are what they are after parsing. The outside (Kubernetes, Postgres, Helm's storage,
files) is a state machine whose calls take effect or not and report success or not; the only assumption is that
a call does not report success without having taken effect.

## What came out differently from what the comments say

- Restore: the comment at a failed rename says nothing has changed yet, and the result then names no place for
  the old data. If the rename was carried out and only the answer was lost, the old data lie under the other
  name and the result does not say so. The old data are never lost; what the result says about their place is
  true if and only if no rename took effect while reporting an error (`Restore.Restore`, `Restore.LostRenameIsNotTold`).
- Restore: besides failed calls and an archive that breaks off, counting stops a restore that lost rows on the way
  and one whose archive sends a table twice. Where every call that could be carried out succeeds and all rows arrive,
  it is restored if and only if the archive is whole, can be counted and sends no table the new database does not have
  (`Restore.Restore`).
- Migration: an override that holds an empty mapping where a non-empty one stands replaces it, while merging
  leaves it alone; and a section called `general` is overwritten by the file of the general keys. For any number
  of slices the meaning changes if and only if some path is forgotten, that is emptied away above by a slice
  later than the last one that says anything about it (`Migrate.NothingForgotten`), or the names collide; the
  migration then stops before it writes anything (`Migrate.MigrateToSections`).
- Saving a form writes the file that owns the key. If the manifest does not list that file, the saved value is
  not in effect (`Store.WriteInEffect`); of a batch, exactly the keys it brings in are lost whose owners are not
  listed (`Store.BatchIsMeant`).
- Saving a form ignores that a file cannot be read: what the file held is then gone, but for what the batch writes
  (`Store.UnreadIsLost`). Nested paths in one batch depend on the order in which a map yields them, unless every outer
  value already holds every inner one (`Store.BatchOrder`).
- Settings page: a change is refused when another block sets the key, but a block with an empty name is not
  noticed: the change is saved and the page goes on showing the other value (`Tasks.UnnamedBlockWins`).
- Release memo: an answer is what the revision found newest decoded to at some moment of the call. That is not
  always what the newest release was at any one moment: when an upgrade supersedes the revision between probe
  and decode, the call returns the superseded revision (`ReleaseMemo.SupersededAnswer`). It was the newest's at
  some moment of the call if the probed revision was not given these contents while a newer one stood; where all
  contents written differ and newer revisions stay, if and only if (`ReleaseMemo.AnswerWasNewest`).
- History: the comment says the deployment time is stored whole. The database column keeps microseconds. A
  successful fast answer equals the slow one if and only if every revision of the window has a time of whole
  microseconds, or was decoded by the call, or was remembered exactly and not taken from a row by the call
  (`History.Client.ListHistoryFast`).
- Drift: the check is exact for merge patches. A JSON patch that adds a null member is reported as being in
  effect before it is (`Drift.AddedNullIsMissed`).
- Hook coverage: a covered patch changes nothing if and only if it has no null. A null is taken for covered over
  the text `<nil>`; and a key of the object with a dot in it can answer for two keys of the patch. An accepted leaf
  is answered by its own place if and only if the object has something there and no longer key is read on the way
  (`Coverage.AcceptedAtItsPlace`).
- Unified diff: for an empty side the header says start 1 and count 0, where the usual convention is start 0; the
  patch function here reads every start as written. A diff of lines does not see whether the last line is ended:
  patching gives the new text back if and only if that is empty or ends with a line break (`Hunks.UnifiedDiff`).
- Login limit: a refused attempt is not recorded, so hammering a locked key does not keep it locked, although
  the comment at the constant says it does (`Throttle.HammeringDoesNotLock`).
- Counters: a restart is seen only when some counter is lower afterwards; one that is not seen costs exactly
  what the counters showed before it (`Counters.HiddenRestart`).
- Configuration swap: an error return after one failed rename leaves the repository as it was. With more, every
  entry lost costs a failed rename beyond the first; of the archive's own entries, before the directories are
  removed, only those are lost that an original entry came back over. A process that is killed in the middle
  leaves the old entries in the directory for old entries, and the next restore empties that directory first.

## Model

| member | source | states |
|---|---|---|
| Values.SetFrame | internal/config/yamledit.go:76-119 | a write is seen at no path that parts from its own |
| Values.SetsCommute | internal/config/yamledit.go:76-119 | writes at paths that part may be made in either order |
| Values.DeleteFrame | internal/config/yamledit.go:127-143 | a removal with its pruning of emptied parents is seen at no path that parts from its own |
| Values.DeleteUndoesSet | internal/config/yamledit.go:76-143 | removing a written value is the same as removing at once, exactly when no leaf stood on the way |
| Values.MergeTwice | internal/config/merge.go:41-53 | merging the same override again changes nothing |
| Values.MergeGet | internal/config/merge.go:41-53 | a leaf of the override is what the merged tree shows at its path |
| Leaves.FlattenLeaves | internal/config/migrate.go:116-127 | the list holds every leaf with its path and nothing else, in whatever order the maps yield their keys; an empty mapping is a leaf |
| Leaves.FoldIsOverlay | internal/config/migrate.go:57-67 | writing the leaves one by one gives the same tree in every order: the override laid over the base |
| Leaves.OverlayIsMerge | internal/config/migrate.go:57-67 | that tree is the deep merge if and only if no empty mapping of the override meets a mapping that is not empty |
| YamlNodes.SetInIsSet | internal/config/yamledit.go:76-119 | editing nodes decodes to writing in the tree |
| YamlNodes.DeleteInIsDelete | internal/config/yamledit.go:127-143 | removing a node with pruning decodes to removing in the tree, for mappings without repeated keys |
| YamlNodes.SetInFrame | internal/config/yamledit.go:76-119 | a write leaves every pair at a path apart from it as it is, comments included |
| YamlNodes.SetInOnTheWay | internal/config/yamledit.go:105-119 | the keys on the way to a write keep their comments |
| YamlNodes.SetInWritten | internal/config/yamledit.go:85-103 | the written value stands at its path, with the head and line comments of the value it replaced |
| YamlNodes.SetInOrder | internal/config/yamledit.go:76-119 | a write leaves the keys of every mapping in their order; a new key comes last |
| YamlNodes.DeleteInFrame | internal/config/yamledit.go:127-143 | a removal leaves every pair at a path apart from it as it is, comments included |
| YamlNodes.DeleteInKeeps | internal/config/yamledit.go:127-143 | whatever stands after a removal stood there before, with the same comments on its key |
| YamlNodes.DeleteInOrder | internal/config/yamledit.go:127-143 | a removal leaves the keys that remain in their order |
| YamlEdit.Node.FindKey | internal/config/yamledit.go:36-43 | the first position of the key, or -1 |
| YamlEdit.Node.SetIn | internal/config/yamledit.go:76-119 | the in-place edit of the node graph does what the edit of the value does, and touches only its own nodes |
| YamlEdit.Node.DeleteIn | internal/config/yamledit.go:127-143 | the in-place removal does what the removal in the value does |
| Merge.MergeInto | internal/config/merge.go:41-53 | the loop that writes into the target computes the deep merge |
| Merge.MergeToMap | internal/config/merge.go:25-38 | the files merged in order, empty ones skipped |
| Sections.EffectiveAt | internal/config/store.go:181-199 | with one owner per key the order of the manifest cannot be seen: a key is in effect as its owner stores it, if the owner is listed |
| Migrate.SplitTopLevel | internal/config/yamledit.go:148-164 | one document per top-level key, each holding that key with its value, comments included, and nothing else |
| Migrate.WriteLeaf | internal/config/migrate.go:58-66 | writing a leaf into the document of its section writes it into the tree the documents hold |
| Migrate.Override | internal/config/migrate.go:56-67 | after an override the documents hold the override laid over what they held |
| Migrate.Partition | internal/config/migrate.go:70-104 | every document reaches the file that owns its key, the general keys together in one; a section called general is lost when there is a general key |
| Migrate.BuildSectionFiles | internal/config/migrate.go:36-105 | the files hold what the slices build, in whatever order the leaves and the documents come; of the first slice every pair apart from what later slices write stands in its file as it stood, comments and order included, and keys keep their comments wherever no value around them was replaced |
| Migrate.MigrationKeepsMeaning | internal/config/sections.go:66-74 | merged in any order the files mean what the slices meant, if and only if laying over gave what merging gives and no section collides with the general file |
| Migrate.OneOverride | internal/config/migrate.go:36-105 | for one override over a base the condition is read off the two files: no empty mapping over a non-empty one, no collision |
| Migrate.NothingForgotten | internal/config/migrate.go:36-105 | for any number of slices writing builds what merging means if and only if no path is forgotten: a later slice empties a mapping above the last word on it, and none writes it again |
| Migrate.BuiltIsMeant | internal/config/migrate.go:36-105 | for any number of slices the documents follow the merged meaning through every slice exactly when none of them clobbers a mapping |
| Migrate.NoneClobbersIsEnough | internal/config/migrate.go:36-105 | where no slice clobbers a mapping nothing is forgotten in the end |
| Migrate.ReplacedAnyway | internal/config/migrate.go:36-105 | that is not needed: three slices of which one clobbers, and the meaning is kept |
| Migrate.MigrateToSections | internal/config/sections.go:42-74 | the migration stops exactly when some path is forgotten or a section called general meets a general key; otherwise the meaning is kept for every manifest that lists the files, and in any case the comments of the first slice as its files keep them |
| Migrate.EmptyOverrideReplaces | internal/config/migrate.go:116-127 | the input on which merging and migrating differ |
| Migrate.GeneralSectionIsLost | internal/config/migrate.go:89-102 | the input on which a section is overwritten by the general file |
| Dotted.SplitDot | internal/config/sections.go:289-305 | the loop splits at every dot; the empty path has no segments |
| Dotted.JoinSplit | internal/config/sections.go:289-305 | joining the segments gives the path back |
| Dotted.SplitJoin | internal/config/sections.go:289-305 | keys without dots come back from their joined path |
| Edits.AnyOrder | internal/config/sections.go:269-273 | writes of which every two part, or the outer holds the inner one already, give the same tree in whatever order a map yields them |
| Edits.OrderCannotBeSeen | internal/config/sections.go:269-273 | all orders of a batch give the same tree if and only if every outer value already holds every inner one |
| Edits.OrderMattersOnTheWay | internal/config/sections.go:269-273 | two writes of which one lies on the way to the other depend on the order, unless the outer value already holds the inner one |
| Store.Group | internal/config/sections.go:231-259 | every change and removal goes to the file that owns its top-level key, removals in their order |
| Store.WriteAll | internal/config/sections.go:269-273 | the writes of a file, in any order, on its nodes |
| Store.RemoveAll | internal/config/sections.go:274-276 | the removals of a file, in their order, on its nodes |
| Store.EditFile | internal/config/sections.go:265-277 | a file after its writes and removals decodes to its tree with them made, and keeps its comments, its own and those of every key the batch does not remove |
| Store.EditKeeps | internal/config/sections.go:264-277 | the edits of one file, writes in any order and then removals, keep every pair apart from them with its comments |
| Store.Store.SetSectionValues | internal/config/sections.go:230-287 | for every batch, nested paths included: all files together hold what the readable ones held with each path set in some order, and in every order when the paths agree, and then each removal made; every file still holds only keys it owns; a file no key of the batch belongs to is equal to the one before; in an edited file every pair apart from the batch is as it was, comments and order included, keys on the way keep their comments, and the document keeps its own |
| Store.BatchOrder | internal/config/sections.go:269-273 | the order in which the map yields the writes cannot be seen if and only if they agree |
| Store.UnreadIsLost | internal/config/sections.go:261-287 | a file that is edited and cannot be read holds afterwards what the batch alone makes of its keys |
| Store.BatchInEffect | internal/config/sections.go:230-287 | with the owners listed, the configuration in effect is the old one with the batch made |
| Store.BatchAtKey | internal/config/sections.go:230-287 | key by key: the batch shows as meant if and only if the owner is listed or the batch brings nothing in under that key |
| Store.BatchIsMeant | internal/config/sections.go:230-287 | the whole batch with its removals is in effect if and only if the owners of all keys it brings in are listed |
| Store.WriteInEffect | internal/config/sections.go:230-287 | a written value is in effect if and only if the manifest lists the file that owns it; otherwise nothing changes |
| KeepComments.KeepComments | internal/config/keepcomments.go:22-54 | the result is the repaired text; the lines that are configuration stay as edited; if only comments and blank lines moved, the original comes back |
| KeepComments.EveryRun | internal/config/keepcomments.go:18-54 | every run of differences, wherever it stands between equal lines: it comes back as it was if neither side has a real line, and stays as edited otherwise, whatever the other runs are |
| KeepComments.AfterIsReal | internal/config/keepcomments.go:22-54 | no real line of the edit is lost, changed or moved |
| KeepComments.OnlyComments | internal/config/keepcomments.go:56-64 | whether a block has no line that is configuration |
| KeepComments.CommentIs | internal/config/keepcomments.go:56-64 | a comment is a line of white space up to its end or up to a hash |
| TaskFields.FindElsewhere | internal/tasks/tasks.go:323-332 | the first other block, in the order of names, that sets the key, with its value |
| TaskFields.Read | internal/tasks/tasks.go:310-336 | what a field shows: its value, the default, or the value of the other block that sets it, with the name of that block |
| TaskFields.EditedKeys | internal/tasks/tasks.go:555-580 | after a series of edits of a block every edited key reads as edited |
| TaskFields.UneditedKeys | internal/tasks/tasks.go:555-580 | and every key apart from them reads as before |
| TaskPlan.Gather | internal/tasks/tasks.go:382-425 | the changes are refused exactly when one is unknown, locked, not valid or set by another block with a name; otherwise every block holds its changes, in whatever order they came |
| TaskPlan.Write | internal/tasks/tasks.go:374-452 | the plan has one edit per changed value and one per touched block, at places that are pairwise apart |
| Tasks.ElsewhereUnchanged | internal/tasks/tasks.go:374-452 | applying the plan leaves everything apart from the changed fields' own paths and the page's own blocks as it was |
| Tasks.BlockAfter | internal/tasks/tasks.go:426-449 | the block a change was made in reads back with all its changes, whichever form its text has |
| Tasks.ChangedReadsBack | internal/tasks/tasks.go:310-452 | a changed field shows its new value afterwards. A block holds the value at its key unless it prints as the default does, and shows it as set; printing alike, the key is gone and the default is shown; a Helm value shows the value, as the default exactly when it prints alike |
| Tasks.OthersReadTheSame | internal/tasks/tasks.go:310-452 | every other field shows what it showed before, a value from another block included |
| Tasks.UnnamedBlockWins | internal/tasks/tasks.go:323-407 | the change that is accepted and not shown, because a block with an empty name sets the key |
| Tasks.OnAndOffLeavesNothing | internal/tasks/tasks.go:413-431 | switching a block setting on and off leaves no block, and the configuration as it was exactly when no leaf stood on the way to the block |
| Tasks.SeparateIs | internal/tasks/tasks.go:410-452 | two fields are kept apart exactly when neither place, or in one component neither key, lies on the way to the other |
| Homeserver.Server.LoadCSV | internal/backup/dbrestore.go:110-117 | COPY appends some first part of the rows it was sent, or fails |
| Homeserver.Server.TruncateAll | internal/backup/dbrestore.go:329-359 | every table is emptied except the bookkeeping that no emptied table takes with it; the schema version is lost with its table |
| Homeserver.EmptiedIs | internal/backup/dbrestore.go:329-359 | only bookkeeping that no emptied table takes along keeps its rows; the version is zero once its table is emptied |
| Homeserver.Server.Verify | internal/backup/dbrestore.go:175-187 | the tables whose number of rows is not what was counted while loading |
| Homeserver.CountersAre | internal/backup/dbrestore.go:131-153 | every counter the target has gets the last value the archive has for it, and keeps its own where there is none |
| Homeserver.Server.MergeKept | internal/backup/dbrestore.go:292-315 | the kept rows whose key the archive does not have are put back |
| Homeserver.ExtrasAre | internal/backup/dbrestore.go:292-315 | each kept row is put back as often as it was kept, unless its key is there |
| Homeserver.RenameNeedsUnused | internal/restore/restore.go:157-178 | a database can be renamed exactly when it is there, nobody has a session on it and the new name is free |
| Homeserver.TerminateFrees | internal/restore/restore.go:157-178 | once the pods are gone, ending the sessions leaves the service's database unused; a service that still runs is back at once |
| Restore.Restore | internal/restore/restore.go:121-350 | for every outcome of every call: the old data exist under exactly one of the two names at every step, nothing destructive is done to them or while anything runs, an undone restore is undone exactly, and what a success leaves is the archive. No call is made that could only be refused, but for the load of a table the new database does not have, and on the way back the drop of a database whose sessions could not be ended; where no call that could be carried out fails and all rows arrive, it is restored exactly when the archive is whole, countable and of known tables. After a failed rename the service is started again at its replicas; the rows reported are those that arrived |
| Restore.Rollback | internal/restore/restore.go:181-207 | the way back succeeds exactly when its calls do, then the catalog is the initial one, the service is ready at its replicas and no previous name is reported; blocked, the old data are still there |
| Restore.PutBack | internal/restore/restore.go:188-200 | dropping and renaming back: the reported name is true exactly when no rename lied |
| Restore.MoveAside | internal/restore/restore.go:127-178 | up to the rename a failure leaves the catalog as it was, or the old data under exactly one name |
| Restore.BuildTarget | internal/restore/restore.go:209-232 | the new database has the schema the running service builds, and everything is quiet when it is opened |
| Restore.Deliver | internal/restore/restore.go:209-350 | from the empty database to the service in use, or back: every call up to the final start succeeded, or the way back was taken, and then for a cause |
| Restore.Fill | internal/restore/restore.go:235-340 | from the empty schema to the archive's content, counted, with the old data untouched whatever fails; it fails only for a cause |
| Restore.TallyCounts | internal/restore/restore.go:251-306 | where all rows arrived, counting again agrees if and only if what each table was sent last is all it was sent |
| Restore.SmoothIsRestored | internal/restore/restore.go:121-350 | without a possible call that failed and without a lost row the verdict is settled by the archive |
| Restore.Load | internal/restore/restore.go:251-277 | the archive's tables are streamed in, bookkeeping is skipped and only its version read; counting can tell what arrived from all of it |
| Restore.FilledContent | internal/restore/restore.go:229-341 | every data table holds exactly the archive's rows, the bookkeeping what the running service built, and background updates also the target's own exactly when its schema is newer than a known archive version |
| Restore.LostRenameIsNotTold | internal/restore/restore.go:170-178 | the state in which the result names no place although the old data were moved |
| RestorePlan.TopoSort | internal/backup/restore.go:348-380 | the order holds every table once, and each table over no cycle after all its parents; it ends on cycles too |
| RestorePlan.CycleOrHeight | internal/backup/restore.go:348-380 | a table has no bounded height exactly when it descends from a cycle |
| RestorePlan.ParentsFirst | internal/backup/restore.go:348-380 | a table that descends from no cycle comes after all its parents |
| RestorePlan.ClearSet | internal/backup/restore.go:325-339 | the emptied set is the least one that holds the tables and is closed under referencing tables outside the never-restored ones |
| RestorePlan.ClearIsAccepted | internal/backup/restore.go:325-339 | TRUNCATE takes that set if and only if no never-restored table references a table in it |
| RestorePlan.Plan | internal/backup/restore.go:255-340 | order and emptied set for the tables wanted and present |
| RestorePlan.NoPrefixBreaksAKey | internal/backup/restore.go:180-239 | of the whole database, emptied tables, untouched ones and never-restored ones included: if it is consistent in the end, it is after every table filled, for keys without cycles |
| RestorePlan.PrefixIsConsistent | internal/backup/restore.go:180-239 | the same for keys with cycles, as long as no row refers to a table that is filled later |
| RestorePlan.AheadIsRefused | internal/backup/restore.go:180-239 | a row that refers to a table filled later is refused |
| RestorePlan.FitsIsConsistent | internal/backup/restore.go:180-239 | it is consistent in the end if and only if every reference of an archived row is to a filled row or to one in a table that was left alone |
| RestorePlan.ConsistentIs | internal/backup/restore.go:180-239 | no row is left that refers to a row that is not there |
| RestorePlan.Fill | internal/backup/restore.go:180-239 | the tables get the archive's rows in order, into emptied tables, up to the first that Postgres refuses |
| RestorePlan.RestoreDatabase | internal/backup/restore.go:180-239 | an error undoes everything; there is one exactly when TRUNCATE is refused, the archive does not fit, or a row refers to a table filled later, which keys without cycles exclude; otherwise filled tables hold the archive, emptied ones nothing, and the rest is as it was |
| ConfigSwap.Repository.RestoreConfigRepo | internal/backup/restore.go:491-567 | success leaves exactly the archive's entries; an error after at most one failed rename leaves the original ones, and placed entries meet none that is there; each entry lost beyond that costs one more failed rename; reserved names are refused before anything moves; there is no error without a cause; the two directories of the swap are gone in the end |
| ConfigSwap.Repository.Swap | internal/backup/restore.go:531-567 | before the directories are removed every original entry is in its place or aside, whatever failed; every entry of the archive is in its place or staged if no rename hit an entry, and one that is not has the original entry in its place, fewer than the failures |
| ConfigSwap.Repository.RestoreBack | internal/backup/restore.go:571-575 | what stays aside is no more than the renames that failed; what was in the way is replaced by the entry that came back and by nothing else |
| ConfigSwap.Repository.TakeOut | internal/backup/restore.go:557-563 | taking placed entries out again loses none of the archive's and leaves no more behind than renames failed |
| Sequences.NoNumberTwice | internal/backup/homeserver.go:79-157 | rows from the snapshot with counters read later: whatever the source does meanwhile, no number drawn after the restore is one a restored row holds |
| Sequences.CounterFirstFallsBehind | internal/backup/homeserver.go:79-92 | read the other way round, the first number drawn is taken |
| Sequences.NextIsSame | internal/backup/dbrestore.go:117-153 | after a restore the target hands out the number the source would have handed out next; a sequence never drawn from leaves the target's alone |
| Sequences.Database.SetSequences | internal/backup/dbrestore.go:131-153 | each counter of the archive is set, a null one left alone, one the target does not have skipped and named |
| Sequences.Database.ResyncSequences | internal/db/sequences.go:23-71 | counters only move forward, end past every number in their columns, exactly those that moved are named, and a second call moves none |
| Hunks.DiffOps | internal/git/repo.go:354-386 | the library's runs become a line script from the old to the new lines |
| Hunks.NextCut | internal/git/repo.go:394-424 | one hunk's cut: it holds the change it starts from and ends in three equal lines on each side, or in as many as stand there |
| Hunks.BuildHunks | internal/git/repo.go:389-430 | ordered, disjoint cuts with no gap longer than twice the context, covering every change, with three lines of context wherever the script has them |
| Hunks.RenderHunk | internal/git/repo.go:432-466 | the header counts and the body are those of the cut |
| Hunks.HeaderStarts | internal/git/repo.go:432-466 | both starts of the header are the line numbers at which the cut begins |
| Hunks.AppliesIs | internal/git/repo.go:432-466 | a hunk's body applies exactly where the old lines have those it quotes, and puts its new side there |
| Hunks.PatchRoundTrip | internal/git/repo.go:389-466 | applying the hunks to the old lines, by their headers and bodies, gives the new lines |
| Hunks.DiffLines | internal/git/repo.go:327-337 | the whole on lines: patching the old lines with the diff gives the new ones |
| Hunks.UnifiedDiff | internal/git/repo.go:327-344 | the whole on texts: patching gives the new text with its last line ended, so the new text itself if and only if it is empty or ends with a line break |
| Hunks.LinesTell | internal/git/repo.go:327-344 | two texts have the same lines if and only if they are the same once the last line is ended |
| Hunks.SplitLines | internal/git/repo.go:468-486 | the loop finds the lines; they hold no line break |
| Hunks.LinesJoin | internal/git/repo.go:339-344 | joining the lines of a text gives it back with its last line ended |
| ReleaseProbe.RevisionOfHelmSecret | internal/helm/release_read.go:79-89 | the version label and the secret's name each give back the revision Helm wrote |
| ReleaseProbe.AtoiIs | internal/helm/release_read.go:79-89 | digits after an optional sign are read as that number while it fits 64 bits |
| ReleaseProbe.ProbeNewest | internal/helm/release_read.go:40-73 | the identity of the highest revision, the first of equals; none exactly when no secret is a revision |
| ReleaseMemo.ProbeSeesNewest | internal/helm/release_read.go:40-73 | on Helm's own secrets, listed in any order, that is the newest release |
| ReleaseMemo.Client.MemoisedReleaseInfo | internal/helm/cache.go:43-53 | the stored answer exactly when it was made from this identity |
| ReleaseMemo.Client.StoreReleaseInfo | internal/helm/cache.go:55-67 | afterwards this identity and no other is answered for |
| ReleaseMemo.Client.InvalidateRelease | internal/helm/cache.go:76-80 | afterwards nothing is answered for this release, and the others are as before |
| ReleaseMemo.StepKeeps | internal/helm/release_read.go:101-125 | no step of any read, write, trimming or invalidation makes the memo hold something else than what its identity decodes to |
| ReleaseMemo.HitDecodesTheSecret | internal/helm/cache.go:20-33 | in every run, the memo answers for a secret that stands with exactly what it decodes to |
| ReleaseMemo.AnswerWasTrue | internal/helm/release_read.go:101-125 | in every run, an answer from the memo or a decode is what the revision found newest decoded to at some moment of that call |
| ReleaseMemo.AnswerIsNewest | internal/helm/release_read.go:101-125 | with no write to the release during the call it is what the slow read returns |
| ReleaseMemo.AnswerWasNewest | internal/helm/release_read.go:101-125 | it was what the newest release held at some moment of the call unless the probed revision was given these contents while a newer one stood; for contents that differ and newer revisions that stay, if and only if |
| ReleaseMemo.SupersededAnswer | internal/helm/release_read.go:101-125 | the run in which the answer is a superseded revision that was the newest at no moment |
| ReleaseMemo.ReusedIdentityMisleads | internal/helm/cache.go:20-33 | the run that goes wrong if a secret is given labels and contents it had before |
| History.CutFirst | internal/helm/history_read.go:136-143 | cutting to the newest before decoding gives the rows that decoding everything and cutting gives |
| History.WindowIsNewest | internal/helm/history_read.go:136-141 | the window is the highest listed revisions in descending order, as many as asked for or all |
| History.StoredIsExact | internal/db/revisionfacts.go:55-74 | a row reads back as written exactly for a time of whole microseconds |
| History.RevisionFacts.Save | internal/db/revisionfacts.go:55-74 | rows that exist stay, and every row is what saving its revision leaves |
| History.Client.PruneRevisionFacts | internal/helm/cache.go:125-138 | exactly the facts of revisions no longer listed are dropped |
| History.Client.MissingRevisions | internal/helm/history_read.go:219-227 | the revisions without facts, in their order |
| History.Client.FillRevisionFacts | internal/helm/history_read.go:196-216 | one read each up to ten, a single read of all above; where nothing fails everything missing is there afterwards, as it was written |
| History.Client.PersistRevisions | internal/helm/history_read.go:236-260 | unless saving fails, every revision that was decoded has its row afterwards; no row is lost or changed |
| History.Client.Complete | internal/helm/history_read.go:143-170 | memory, then the database, then a decode of what is still missing; what was taken and what was decoded stands over what was remembered, and facts of other releases stay |
| History.Client.ListHistoryFast | internal/helm/history_read.go:114-190 | the answer shows the newest revisions, as many as asked for or all, descending, and every one left out is lower; there is one unless the list or a read of the storage fails. From every reachable memory and database the rows equal the slow answer if and only if each revision's time is whole microseconds, or it was decoded by this call, or it was remembered exactly and not taken from a row. What is remembered is not read again, what the database has is not decoded, and what is decoded is in the database afterwards unless a call to it fails; facts of listed revisions stay in memory, and no others but those read by this call |
| History.ExactIs | internal/helm/history_read.go:143-170 | what memory holds of a revision afterwards is exact exactly under that condition |
| Drift.PatchTwice | internal/drift/drift.go:132-145 | a merge patch (section 2 of RFC 7396) that was applied changes nothing any more |
| Drift.Diff | internal/drift/drift.go:161-182 | the loop appends exactly the differing fields |
| Drift.ReportedIsChanged | internal/drift/drift.go:161-182 | a name is reported if and only if it is the name of a path at which the two objects differ, with mappings above it in both, and which is neither two mappings nor a null that appears |
| Drift.JoinAllIsDotted | internal/drift/drift.go:184-189 | the name of a path is its keys joined by dots |
| Drift.NoDifferences | internal/drift/drift.go:161-182 | nothing is reported if and only if the second object is the first, but for null members that appear |
| Drift.MergeCheckIsExact | internal/drift/drift.go:109-119 | for a merge patch nothing is reported if and only if applying it changes nothing |
| Drift.JustAppliedIsSatisfied | internal/drift/drift.go:109-119 | a patch just applied is reported as being in effect |
| Drift.AddedNullIsMissed | internal/drift/drift.go:161-182 | the change that is not reported |
| Drift.CheckOne | internal/drift/drift.go:86-125 | unknown exactly when there is no live object or no way to apply the patch; otherwise in effect exactly when applying a merge patch changes nothing, with the differing fields named |
| Coverage.PatchCovered | internal/drift/chartmatch.go:131-145 | covered exactly when something is set, the object exists and every path reads the same value; otherwise the paths that do not |
| Coverage.SameOrDiffers | internal/drift/chartmatch.go:113-122 | two quantities count as the same if and only if their amounts are equal, and other values if and only if they print alike |
| Coverage.LongestKey | internal/drift/chartmatch.go:69-76 | the longest run of segments that names an existing key, and none longer does |
| Coverage.ReadsOwnKeys | internal/drift/chartmatch.go:64-108 | a path is read key by key, dots in the keys or not, where at each mapping no longer run of its segments is a key, and no run at all where its own key is missing |
| Coverage.ReadsSomePath | internal/drift/chartmatch.go:64-108 | whatever the keys, what is read under a name stands at some path of that name, the one followed |
| Coverage.FollowsItself | internal/drift/chartmatch.go:64-108 | the reading follows a path if and only if the object has something there and each of its keys is the one read |
| Coverage.AcceptedAtItsPlace | internal/drift/chartmatch.go:131-145 | an accepted leaf is answered by the place followed, and by its own if and only if the object has something there and reads it by its own keys |
| Coverage.WantedPair | internal/drift/chartmatch.go:82-89 | a selector's pairs are separated by commas, a later one for the same key counts, and a piece without an equals sign makes it unreadable |
| Coverage.SelectorReads | internal/drift/chartmatch.go:78-105 | a readable selector reads on in the first item that bears all it wants, and reads nothing where none does |
| Coverage.OnlySelectorsRead | internal/drift/chartmatch.go:78-89 | nothing else reads anything in a list |
| Coverage.PlainIsReadable | internal/drift/chartmatch.go:64-108 | for keys without dots and selectors that is always so |
| Coverage.Flatten | internal/hooks/coverage.go:55-67 | every leaf of the patch is named by its dotted path, and nothing else |
| Coverage.FlattenedHolds | internal/hooks/coverage.go:55-67 | where no two leaves share a dotted name, every leaf is found under its own |
| Coverage.CarriedIsCovered | internal/drift/chartmatch.go:131-145 | where leaves read as their own keys, the accepted patches are those whose every leaf the object has, mapping by mapping |
| Coverage.CoveredReadsAlike | internal/drift/chartmatch.go:113-145 | in a covered merge patch no readable leaf asks for another amount or another text than the object has at its place |
| Coverage.OpsCarried | internal/hooks/coverage.go:16-45 | a JSON patch is accepted exactly when the object holds, at every place written, the last value written there |
| Coverage.CoveredIsNoOp | internal/drift/hookcover.go:13-19 | a covered patch changes no field, up to the notation of values, if and only if it removes nothing |
| Coverage.NothingChanges | internal/drift/hookcover.go:13-19 | a covered patch that only sets, merge patch or operations at places apart, leaves every field as it is |
| Coverage.Sets | internal/hooks/coverage.go:16-45 | the leaves of a merge patch, or the add and replace operations of a JSON patch; any other operation is an error |
| Coverage.JsonPointerToDotted | internal/hooks/coverage.go:47-53 | the loop turns each token into its key |
| Coverage.UnescapeEscape | internal/hooks/coverage.go:47-53 | every key comes back from the pointer token that stands for it (section 3 of RFC 6901) |
| Coverage.PointerBack | internal/hooks/coverage.go:47-53 | the keys of every path come back from the pointer to it (sections 3 and 4 of RFC 6901), slashes and tildes in them included |
| Coverage.ManifestObject | internal/drift/chartmatch.go:24-38 | the first document whose kind folds to the one asked for and whose metadata bear the name; none if and only if there is no such document |
| Coverage.BodyCovered | internal/drift/hookcover.go:33-45 | one patch, merge or JSON: where its paths read as its own keys it is accepted exactly when the object holds all it sets |
| Coverage.CoveredActions | internal/drift/hookcover.go:20-59 | the loop over the actions of a hook stops at the first with something left to do, and counts the patches before it |
| Coverage.HookCoverage | internal/drift/hookcover.go:20-59 | a hook is skipped if and only if it has a patch and nothing it does is left to do; a skipped hook asks for no other amount and no other text at any readable leaf, and those of its patches that only set would change nothing |
| Coverage.NullIsNoText | internal/drift/chartmatch.go:113-122 | the covered patch that would remove a field |
| Coverage.DottedKeyAnswers | internal/drift/chartmatch.go:69-76 | the object that reads as having a field it does not have |
| Ulid.ShiftStep | internal/masupstream/masupstream.go:99-103 | one turn of the two-word loop, with its 64-bit wrap, takes off one base-32 digit of the 128-bit number |
| Ulid.EncodeWords | internal/masupstream/masupstream.go:96-104 | the loop over the two words writes the 26 base-32 digits of the 128-bit number they hold |
| Ulid.NewULID | internal/masupstream/masupstream.go:88-105 | the 26 symbols of 48 bits of milliseconds above 80 random bits, for any time |
| Ulid.AlphabetIs | internal/masupstream/masupstream.go:94 | the symbols are the digits and the capital letters in order, without I, L, O and U |
| Ulid.GenerateULID | internal/auth/oidc_config.go:71-83 | the division loop writes the same 26 symbols of the 128-bit number |
| Ulid.DecodesBack | internal/masupstream/masupstream.go:88-105 | decoding gives the number back; the first symbol is at most 7 |
| Ulid.EarlierSortsFirst | internal/masupstream/masupstream.go:88-105 | a smaller millisecond stamp below 2^48 sorts first, whatever the random bytes |
| Throttle.BackoffGrows | internal/auth/throttle.go:95-116 | the delay never falls as failures add up, is zero exactly below five, never exceeds four seconds and never wraps |
| Throttle.LoginAttempts.Check | internal/auth/throttle.go:62-90 | refused exactly with fifteen failures or more, the last less than fifteen minutes ago, until those are over; otherwise the delay is none below five failures of the last hour, then 250 ms, 500 ms, 1 s, 2 s and 4 s; nothing is recorded |
| Throttle.LoginAttempts.Failed | internal/auth/throttle.go:119-138 | one failure more, or the first again after an hour |
| Throttle.AttemptsAreBounded | internal/auth/throttle.go:23-90 | attempts made one after the other and all wrong: in a time T at most fifteen and one for every four minutes of T get through |
| Throttle.EveryWindowIsBounded | internal/auth/throttle.go:23-90 | the same for every stretch of a run, wherever it starts |
| Throttle.BurstGetsThrough | internal/auth/throttle.go:62-90 | fifteen get through at one moment on a fresh key, and no more |
| Throttle.HammeringDoesNotLock | internal/auth/throttle.go:62-90 | however often a locked key is tried, it opens fifteen minutes after its last recorded failure and not before; one more failure then locks it again |
| Counters.NewSample | internal/rtc/sample.go:56-92 | deltas are never negative; a restart is seen exactly when some counter is lower |
| Counters.Sum | internal/rtc/sample.go:112-127 | the sums of the deltas, the restarts seen, and the oldest observation |
| Counters.TotalIsHonest | internal/rtc/sample.go:56-127 | over any run of lives and gaps the total never exceeds what happened since the first sample, and equals it exactly when no interval loses anything |
| Counters.HiddenRestart | internal/rtc/sample.go:70-91 | what a restart costs that no counter shows |

## Left out

- Text: parsing and printing of YAML, JSON and CSV, anchors, aliases, styles other than flow, repeated keys in a mapping (a decoder refuses them), and the German messages. What is printed is taken to be read back.
- The Myers diff: its result is an input, any valid list of runs.
- The Kubernetes, Helm, Postgres, git and file clients: what each call does to the outside is modelled, not how it does it.
- Store.Store.SetSectionValues: writes and parses without failing; the source can stop between two files. The text repair after it is modelled on lines, on its own, in `KeepComments`.
- Migrate.MigrateToSections: stops where the backup, the files and the manifest are written; the alphabetical order of the files is for stable output only and is not modelled.
- KeepComments.KeepComments: works on lines; a line that starts with a hash inside a text value counts as a comment, as it does in the source.
- YamlEdit.Node.SetIn: takes the new value as a node that is not yet part of the tree; the source makes that node itself from the value.
- Tasks.ChangedReadsBack: assumes that no field's place lies on the way to another's, which is a property of the list of fields and is not proved of that list here; validation of values is a parameter.
- Restore.Restore: progress texts, the number of tables and skipped sequences are not modelled. The service writes nothing of its own while it runs except the schema it builds in an empty database, which it builds while it is waited for; and identifiers longer than Postgres keeps are not cut.
- Homeserver.Server.LoadCSV: columns are matched by name in the source; here a table's rows have the columns they have.
- RestorePlan.RestoreDatabase: reads the keys from the catalog in the source; here they are an input. Rows are identities with their references, and what Postgres refuses besides broken keys is not modelled.
- Hunks.SplitLines: texts are sequences of characters; the source replaces bytes that are not UTF-8.
- ConfigSwap.Repository.RestoreConfigRepo: an entry is a name with contents, file or directory alike; writing the archive's copy out either works or does not.
- ReleaseMemo.AnswerWasTrue: assumes that Helm never writes a secret under labels that release used before; `ReusedIdentityMisleads` shows that it is needed.
- History.Client.ListHistoryFast: assumes that a revision number is never created again, as after uninstalling and installing a release, and that the column keeps microseconds by cutting off the rest.
- Drift.CheckOne: JSON patches are applied by a library, whose result is an input; the library's treatment of nulls in lists of a merge patch is not modelled.
- Coverage.HookCoverage: whether a strategic merge patch is accepted is modelled; what the API server makes of its lists and directives is not, so that those with any are left out of what would change nothing. Printing values and comparing quantities are parameters.
- Throttle.AttemptsAreBounded: one clock; the source compares the time of the database with that of the process. An attempt that is let through and given up while it waits is not recorded in the source, and does not occur here.
- Sequences.NoNumberTwice: sequences that count up by one, and columns filled from their sequence only.
- Handlers, the web interface, capacity findings, federation walks, the catalogue of settings with its comments, cryptography and token stores: presentation, library work or single classifications.
