# A model of git-repo-go

`git-repo-go` is a Go implementation of Android `repo`: it keeps many git
projects, described by XML manifests, in one workspace.  Most of its work is done
by git; this project models the parts that decide something themselves, and proves
what they promise for all inputs, runs and interleavings.

| file | what it models |
|---|---|
| `project_tree.dfy` | the forest of project paths that `treeAppend` scans (objects on the heap, and the value they hold) |
| `sync_scheduler.dfy` | `LocalHalf`: main, a worker pool, one bounded channel, sender goroutines and a wait counter, as a step system; a schedule is any interleaving |
| `sync_order.dfy` | which projects can overtake each other in `LocalHalf`, and with how many workers |
| `project_sync.dfy` | `SyncLocalHalf`: the decision over HEAD, branch, tracking configuration, worktree and commit graph |
| `manifest.dfy`, `manifest_load.dfy`, `manifest_visit.dfy` | fixing up, flattening, merging, including, visiting and freezing manifests |
| `manifest_sync.dfy` | from the manifests to the end of `LocalHalf`: which projects a sync gets |
| `lexical_path.dfy` | `filepath.Clean` and `filepath.Join` |
| `obsolete_paths.dfy` | `UpdateProjectList`: obsolete worktrees and their git directories |
| `git_dirs.dfy` | exactly which git directories go with those of obsolete paths |
| `project_list.dfy` | what `project.list` holds, over any history of runs |
| `keyword_filter.dfy` | the clean and smudge filter for `$Keyword$` |
| `upload_options.dfy` | the edit script of `upload`, written and read back |
| `shell_words.dfy`, `macros.dfy`, `git_status.dfy`, `version_order.dfy` | quoting commands, expanding templates, reading raw status, comparing versions |
| `text.dfy` | byte order, sorting, splitting, trimming, `Atoi` |

What the source changes in place is changed in place here: `Node`, `Project`,
`Document`, `Driver`, `UploadOptions` and `RepoWorkSpace` are classes whose methods
follow the source statement by statement, and loops are loops.  Each such method is
proved equal to a function of the old state, and the properties are proved about
these functions.  A string is a sequence of bytes, except in `shell_words.dfy`,
`upload_options.dfy` and `obsolete_paths.dfy` and what builds on it, where the source
works on runes or trims Unicode white space; the order of runes is that of their UTF-8
bytes.

Where the code does less than one would expect, the exact condition is proved:

* `treeAppend` does not put every nested project below its ancestor: with `a`, `a-b`
  and `a/c` the last one lands beside `a`.  It does exactly when no listed path
  extends the ancestor by a byte smaller than `/` (`NestingIsComplete`).
* For such a pair the order of the syncs is still kept when there is one worker only,
  and it can be broken as soon as there are two (`OrderExactly`).
* `LocalHalf` never reaches `close` when a project is at `/`, which a manifest can say:
  the node's path is trimmed to nothing, so it has no project and nobody calls `wg.Done`
  for it (`ClosesForClean`, `SlashNeverCloses`; `ClosesExactlyWhen` for arbitrary paths).
  Otherwise every project that merged manifests name is synced once (`ManifestIsSynced`).
* A successful sync has the target, unless the project stays on a branch that tracks
  something, the `rev-list` that looks for remote changes fails, and the project did not
  have it before (`SyncReachesTarget`, `FailedListMissesTarget`).
* A second sync repeats the first one's outcome unless the first one left a branch
  ahead of the target that no longer tracks anything (`SyncTwice`).
* The hard reset of the manifest project keeps every commit of the branch reachable
  exactly when the old tracking branch resolves and can be listed, or the branch's tip
  lies below the new tip or the old tracking branch anyway.  Otherwise the failing
  `rev-list` counts as "no local changes" (`HardResetKeepsCommits`, `HardResetCanLose`).
* `docs/manifest-format.md` says that a manifest may remove a project and add it anew.
  In the code a removal comes after the additions and takes both
  (`OwnProjectSurvives`, `ReplacementVanishes`).
* Smudging and then cleaning is cleaning, unless a `$`-delimited text that the scan
  skips equals a matched one (`CleanAfterSmudge`); values with a `$` break it
  (`DollarValueBreaks`).
* Quoted words come back from the parser exactly when they contain no double quote
  and none begins and ends with a single quote (`QuoteThenParse`).
* An upload script gives the options back exactly when they are trimmed, single-lined
  where one line is meant, and have no line that starts with `#` or ends in a blank
  (`LoadExportExactly`).
* The script of a published review leaves title and description alone exactly when no
  exported option begins with a heading for one of them and goes on (`PublishedKeeps`,
  `HeadingRewritesTitle`).
* `parseGitStatus` panics exactly when a header's status field is empty
  (`GitStatus.PanicsExactlyWhen`).
* A negative width makes `ReplaceMacros` panic (`PanicsExactlyWhen`).
* Removing the git directory of an obsolete `a` also removes that of a living
  `a.git/b`, which lies inside it; a living project loses its git directory exactly
  then, or when it holds nothing but git directories of obsolete paths (`LivingGitDir`).
* `project.list` can hold a path twice: the clean paths ` a` and `a` are read back as one
  (`BlankDoubles`).  A run leaves it without repetitions exactly when, before the run, the
  projects' paths as they would be read back are distinct, and distinct from the obsolete
  paths that have a worktree, or a git directory that resists removal (`DistinctExactly`,
  `ListStaysDistinct`).  With clean, distinct paths without line feeds and outer blanks
  it never happens (`ListableHistory`).

## Model

| member | source | states |
|---|---|---|
| ProjectTree.PreorderIsInput | project/project.go:624-652 | the pre-order walk of the scanned forest is the input list, trailing slashes trimmed: no path is lost, repeated or moved |
| ProjectTree.ScanNests | project/project.go:638-648 | every edge of the forest goes from a path P to a path that starts with P + "/" |
| ProjectTree.NestingIsComplete | project/project.go:630-651 | a listed q below a listed p lies in p's subtree, at any depth, if and only if no listed path extends p by a byte smaller than '/' |
| ProjectTree.DashSplits | project/project.go:638-648 | the list `a`, `a-b`, `a/c`, for which the last is not below the first |
| ProjectTree.TreeAppend | project/project.go:624-652 | the in-place scan of a slice terminates, appends exactly that forest to the tree, and rewrites the slice to its trimmed paths and nothing else |
| ProjectTree.Descend | project/project.go:639-646 | the inner loop takes the longest run of paths below the previous one and grows the last child by its forest |
| ProjectTree.Node.Append | project/project.go:649-650 | appending a child extends the value of the tree by that child's value |
| ProjectTree.ProjectsTree | project/project.go:609-622 | builds a fresh tree whose root has no project and whose forest is that of the sorted project paths |
| ProjectTree.TreeWalk | project/project.go:610-622 | the tree walks through every project's path once, in ascending order |
| ProjectTree.TreeComplete | project/project.go:631-637 | every lookup by path hits if and only if each project's trimmed path is itself a project's path |
| ProjectTree.NodesHoldTheirProjects | project/project.go:609-637 | every node, at every depth, holds the project at its own path, the last one listed there; a node without a project is at a path where none is listed |
| SyncScheduler.StepBalance | cmd/sync.go:378-407 | no step of main, a worker or a sender loses or duplicates a tree node: started plus outstanding work stays the same under every weighting |
| SyncScheduler.NeverPanics | cmd/sync.go:388-410 | in every reachable state no step sends on the closed channel or takes the wait counter below zero |
| SyncScheduler.InvStep | cmd/sync.go:368-410 | every step keeps the invariant: the counter is the number of unfinished projects, plus the nodes without a project; a worker is gone only when the channel is closed and drained |
| SyncScheduler.SendersEmpty | cmd/sync.go:388-410 | once the channel is closed, no sender holds an unsent child |
| SyncScheduler.RunsAreFinite | cmd/sync.go:368-410 | every interleaving ends: at most six steps per node, one exit per worker, two steps of main |
| SyncScheduler.StuckMeans | cmd/sync.go:402-410 | progress: when nothing can move, no work is left; main has closed the channel and the workers have left if every node has a project, else main never gets past Wait |
| SyncScheduler.EveryProjectOnce | cmd/sync.go:378-410 | for clean distinct paths, at the end of every interleaving each project, itself and not only its path, has been started once and has returned once, and the channel is closed |
| SyncScheduler.OnlyProjectsStart | cmd/sync.go:378-387 | whatever is started, in any run, is one of the listed projects, at the node of its own path |
| SyncScheduler.AncestorsFirst | cmd/sync.go:380-398 | a project is not started before every project above it in the tree has returned |
| SyncScheduler.NestedAfterParent | cmd/sync.go:349-410 | at every moment of every run, a project listed below another has not started unless that one has returned, provided no path splits the two |
| SyncScheduler.ClosesExactlyWhen | cmd/sync.go:368-410 | a finished run has closed the channel if and only if every project's trimmed path is a project's path; otherwise main never gets past Wait |
| SyncScheduler.ClosesForClean | cmd/sync.go:368-410 | with the cleaned paths that a manifest gives, a finished run has closed the channel if and only if no project is at "/" |
| SyncScheduler.SlashNeverCloses | cmd/sync.go:368-410 | with a single project, at "/", main never gets past Wait, in any interleaving |
| ManifestSync.MergedPathsAreClean | workspace/repo-workspace.go:202-226 | whatever the manifests and the selected groups, the projects of a sync have clean, distinct paths; none ends in "/" if and only if none is "/" |
| ManifestSync.ManifestIsSynced | cmd/sync.go:349-410 | from manifests to the end of every interleaving: each project of the merged manifest has been started once and has returned once if it is selected, and never been started otherwise, and the channel is closed; unless one is at "/", and then main never gets past Wait |
| SyncOrder.Overtakes | cmd/sync.go:370-404 | with two workers, from the start of any run, a schedule in which a project that the tree does not put below another starts before that one has returned |
| SyncOrder.OneWorkerKeepsOrder | cmd/sync.go:361-400 | with one worker, and so a channel of one place, no project starts before the one above it has returned, whatever the tree |
| SyncOrder.OrderExactly | cmd/sync.go:349-410 | in every run a nested project waits for the one above it, if and only if there is one worker only or no listed path splits the two |
| ProjectSync.Project.SyncLocal | project/local-half.go:158-377 | the procedure, statement by statement, does what the decision table says: result, repository afterwards, and git commands in order |
| ProjectSync.Project.SyncBranch | project/local-half.go:276-377 | the part that stays on a branch does what the decision table says |
| ProjectSync.RunsExactly | project/local-half.go:244-371 | at most one git command is run, on the state found: exactly when it is a checkout, a hard reset, a rebase or a fast forward, in terms of branch, tracking, commits, published commits, worktree and settings |
| ProjectSync.RefusedExactly | project/local-half.go:246-361 | exactly when a sync is refused because of a rebase in progress, unmerged or unknown published commits, a dirty worktree or local changes; nothing is run or changed then |
| ProjectSync.FailsExactly | project/local-half.go:213-227 | otherwise it fails exactly when git does, or when submodules, after any command but a hard reset, or copied files do |
| ProjectSync.NotBegun | project/local-half.go:158-186 | without a worktree or a revision, or with one that does not resolve, nothing is run |
| ProjectSync.CommandsMove | project/local-half.go:258-371 | what the commands do when they succeed: a checkout detaches at the target, the others move the branch they are on, to the target or to what git has made; only a hard reset cleans up |
| ProjectSync.PostTracks | project/local-half.go:207-242 | whatever the outcome, the branch then tracks the default tracking branch, or nothing if there is none, and no other part of the repository has changed |
| ProjectSync.DefaultIsFirst | project/repository.go:339-353 | the default tracking branch is the first of revision, destination branch, upstream and the manifest's default revision that can be tracked |
| ProjectSync.ImmutableMeans | common/refs.go:11-55 | what cannot be tracked: a commit id of 40 or 64 hexadecimal digits, and a full ref that is not a branch's |
| ProjectSync.TrackingConfig | project/branch.go:279-300 | the configuration gets the full ref of the branch to track, and the remote if there is one, or nothing at all for that branch; other branches are left alone |
| ProjectSync.PostKeeps | project/local-half.go:213-227 | nothing but tracking configuration is changed after the update |
| ProjectSync.CleanKeeps | project/project.go:183-218 | exactly the published refs of branches that are gone are dropped, unless they resist; HEAD, every branch and every other ref are left alone |
| ProjectSync.TargetMeans | project/branch.go:192-217 | what a sync brings the project to: a commit id stands for itself, a full ref that is not a branch too, and a branch for the branch of that name at the remote |
| ProjectSync.SyncReachesTarget | project/local-half.go:246-376 | provided that successful rebases and merges do what git promises: a successful sync ends with the target reachable from HEAD, if and only if listing the remote changes did not fail, or was not to decide (no branch, no tracking, detaching, or a manifest project that tracks another than the default), or the target was reachable before; on a tracked branch, and not detaching, it stays on that branch |
| ProjectSync.FailedListMissesTarget | project/local-half.go:291-303 | a sync that reports success without the target, because that list failed |
| ProjectSync.CommandsAreSafe | project/local-half.go:246-376 | rebase and hard reset never start on a dirty worktree; hard reset only in the manifest project; unless it is told to detach, a sync leaves a branch only if it tracks nothing |
| ProjectSync.HardResetKeepsCommits | project/local-half.go:348-361 | every commit of the branch stays reachable from the new tip or the old tracking branch, if and only if that branch resolves and rev-list succeeds, or the old tip lies below one of the two |
| ProjectSync.HardResetCanLose | project/local-half.go:351-356 | a repository in which it does lose one |
| ProjectSync.SyncTwice | project/local-half.go:159-377 | a second successful sync leaves the whole repository as it is, if and only if the first did not end ahead of the target on a branch that tracks nothing |
| ProjectSync.SecondSyncCanLeave | project/local-half.go:281-289 | a repository, pinned to a tag, whose second sync leaves the branch that the first one kept |
| ProjectSync.DefaultTrackSettles | project/repository.go:339-353 | with a default tracking branch the first sync never ends that way; without one it does whenever it ends on a branch off the target |
| ProjectSync.TargetStays | project/branch.go:192-217 | a successful sync does not move the revision it synced to |
| ProjectSync.ConfigIdempotent | project/branch.go:279-300 | setting a branch's tracking twice is setting it once |
| ProjectSync.UpdatedTracking | project/branch.go:50-61 | what was set as tracking is what is read back: the short name, or nothing |
| LexicalPath.CleanIsReduced | manifest/manifest.go:579-581 | a cleaned path has no empty, "." or inner ".." element, and keeps being rooted or not |
| LexicalPath.CleanIdempotent | manifest/manifest.go:579-581 | cleaning twice is cleaning once |
| LexicalPath.CleanWalks | manifest/manifest.go:579-581 | what the elements of a path do: a name goes down, ".." back up from it, "." and "" nowhere; from the root there is no way up, from a relative start only further up |
| LexicalPath.CleanJoin | manifest/manifest.go:280-293 | cleaning a directory before joining makes no difference |
| LexicalPath.JoinMeans | manifest/manifest.go:280-293 | an empty element counts for nothing in a join, and a clean path without ".." goes below the one it is joined to |
| LexicalPath.CleanEndsInSlash | manifest/manifest.go:579-581 | the only cleaned path that ends in "/" is the root |
| Manifests.FixupFixesUp | manifest/manifest.go:200-226 | a manifest that passes fixup has clean names and paths at every depth |
| Manifests.FixupExactly | manifest/manifest.go:170-226 | fixup fails if and only if, at some depth, a name or a part of a file to copy or link is empty; otherwise it cleans names and paths, an empty path becoming the name, and changes nothing else |
| Manifests.ManifestFixup | manifest/manifest.go:146-173 | the same for the whole manifest, with remotes, removals, extensions and includes; a manifest with nothing to trim, clean or fill in stays as it is |
| Manifests.CleanPathMeans | manifest/manifest.go:579-581 | both slashes separate, and one ".git" at the end goes |
| Manifests.FlattenFlattens | manifest/manifest.go:275-324 | flattening leaves clean projects without children |
| Manifests.FlattenPlaces | manifest/manifest.go:275-324 | nothing is lost in flattening, parents come first, each project lies at the joined and cleaned paths of all that it is nested in, and is named likewise, with its own attributes |
| Manifests.AllProjectsPlaced | manifest/manifest.go:366-374 | the same for a whole manifest |
| Manifests.FlattenAgain | manifest/manifest.go:289-293 | flattening a flat list changes nothing but one more ".git" per name |
| Manifests.Document.AddRemote | manifest/manifest.go:440-457 | a remote replaces the one of its name when it overrides, must equal it otherwise, and is appended when new |
| Manifests.Document.AddProjects | manifest/manifest.go:476-493 | succeeds if and only if all flattened paths, old and new, are distinct, and then appends the new ones |
| Manifests.Document.RemoveProjects | manifest/manifest.go:495-507 | keeps exactly the flattened projects whose names are not removed, in order |
| Manifests.Document.ExtendProjects | manifest/manifest.go:509-529 | the last extension of a name applies, only where the path agrees: groups are joined, the revision replaced |
| Manifests.ExtensionApplies | manifest/manifest.go:509-529 | an extension that is the last of its name and has the path of a project sets its revision, if it has one, and appends its groups; apart from that, and without one, the project stays as it is |
| Manifests.Document.Merge | manifest/manifest.go:431-534 | merging in place does what the merge function says; on the first error that applies, the manifest keeps exactly what had been merged before it |
| Manifests.MergesExactly | manifest/manifest.go:431-493 | exactly when a merge succeeds and why it fails otherwise: two notices, a clashing remote, default or server, a path listed twice; and what becomes of notice, default, server and remotes |
| Manifests.RemotesMerged | manifest/manifest.go:440-457 | after merging, a name stands for the last remote merged under it, and names keep their order; it fails if and only if a remote differs from the one of its name at that time and does not override it |
| Manifests.MergedList | manifest/manifest.go:476-529 | the list after a merge is old flattened ++ new flattened, in order, minus the removed names, extended; exact also for names ending in ".git" |
| Manifests.MergeConsolidates | manifest/manifest.go:431-534 | a successful merge yields flat projects at distinct paths, distinct remote names, and no project of a removed name |
| Manifests.MergedManifestsAreConsolidated | manifest/manifest.go:644-653 | so does any successful merge of any list of manifests |
| Manifests.OwnProjectSurvives | manifest/manifest.go:485-507 | a project that a manifest adds survives its merge if and only if the same manifest does not remove the name that it ends up with |
| Manifests.ReplacementVanishes | manifest/manifest.go:495-507 | the documented way to replace a project leaves neither of the two |
| ManifestLoad.ParseXML | manifest/manifest.go:601-642 | the recursive loader terminates on every include graph and returns what the include function says |
| ManifestLoad.LoadSucceeds | manifest/manifest.go:601-642 | from depth 1 loading succeeds if and only if every include chain has at most 11 files and ends in a file that loads, passes fixup and resolves its includes |
| ManifestLoad.CyclesFail | manifest/manifest.go:623-632 | a cyclic include is an error |
| ManifestLoad.LoadsInPreorder | manifest/manifest.go:617-641 | the manifests come in the pre-order of the include tree, each one its file, fixed up |
| ManifestLoad.MergeLoaded | manifest/manifest.go:644-653 | merges them, in order, into an empty manifest, up to the first error |
| ManifestVisit.ExecuteSucceeds | manifest/manifest.go:554-577 | the visit gets through if and only if nothing is nested below the depth bound |
| ManifestVisit.VisitsAreFlattened | manifest/manifest.go:544-577 | nodes are visited in the order flattening lists them, each at its flattened path |
| ManifestVisit.FreezeThenFlatten | workspace/repo-workspace.go:329-371 | freezing the nested manifest and flattening it is flattening it and freezing each project at its own path |
| ManifestVisit.FreezeManifest | workspace/repo-workspace.go:329-382 | freezing a manifest succeeds if and only if it is nested at most eleven deep; then each project is pinned to the commit checked out at its flattened path, its upstream kept or filled in, and stays as it is where nothing is checked out |
| KeywordFilter.MatchIsPattern | cmd/filter-helper-keyword-subst.go:43-51 | the scan accepts, at each place, exactly the texts of the pattern |
| KeywordFilter.CleanIsRewrite | cmd/filter-helper-keyword-subst.go:69-72 | cleaning bytes is rewriting the parts between the dollars, matches taken left to right |
| KeywordFilter.CleanIdempotent | cmd/filter-helper-keyword-subst.go:54-88 | cleaning is idempotent on every line |
| KeywordFilter.ReplaceJoin | cmd/filter-helper-keyword-subst.go:230-236 | replacing every occurrence of one match rewrites the parts between the dollars that equal it, each dollar used once, left to right |
| KeywordFilter.Driver.SmudgeLine | cmd/filter-helper-keyword-subst.go:103-111 | the loop over the matches is the sequence of global replacements |
| KeywordFilter.SmudgeMeans | cmd/filter-helper-keyword-subst.go:91-125 | with values without '$', and no skipped text equal to a matched one that is replaced, every match whose keyword has a value becomes the keyword and that value, and everything else on the line stays as it is |
| KeywordFilter.CleanAfterSmudge | cmd/filter-helper-keyword-subst.go:54-125 | with values without '$', cleaning a smudged line is cleaning the line, if and only if no skipped text equals a matched one that is replaced |
| KeywordFilter.CollisionBreaks | cmd/filter-helper-keyword-subst.go:106-108 | a line with such a skipped text, which does not come back |
| KeywordFilter.DollarValueBreaks | cmd/filter-helper-keyword-subst.go:225-237 | a value with a '$' for which it is not |
| Text.AtoiReads | version/version.go:96-98 | the numbers that are compared: decimal digits with or without a sign, as far as 64 bits go |
| Text.AtoiReadsOnly | version/version.go:96-98 | nothing else is a number |
| VersionOrder.CompareVersion | version/version.go:86-132 | the loop with its early returns computes the comparison |
| VersionOrder.CompareMeans | version/version.go:86-132 | the comparison is the lexicographic order of the components: words by their bytes, before the end, before numbers by their value |
| VersionOrder.FirstDifference | version/version.go:96-117 | whatever two versions have in common and whatever follows, the smaller component makes the smaller version: numbers by value, words by bytes, words before numbers |
| VersionOrder.LongerVersion | version/version.go:119-129 | a version that continues another comes after it if it goes on with a number, before it if with a word |
| VersionOrder.CompareIsPreorder | version/version.go:86-132 | reflexive, with opposite signs the other way round, and transitive |
| ShellWords.QuoteString | helper/shell.go:33-66 | the rune loop writes the quoted word; an empty word panics |
| ShellWords.QuotedExactly | helper/shell.go:11-14 | a word is written as it is if and only if it begins and ends with the same quote already, or has only ASCII letters, digits and a few signs; otherwise it gets double quotes |
| ShellWords.EscapeCloses | helper/shell.go:46-63 | escaping leaves no double quote open, adds nothing but backslashes, and nothing where none was open |
| ShellWords.QuoteCommand | helper/shell.go:22-30 | quotes every word, one space apart; panics if and only if some word is empty |
| ShellWords.NewShellCmd | helper/shell.go:79-132 | the loop with its quote and space flags computes the parse |
| ShellWords.RunKeeps | helper/shell.go:97-123 | parsing makes up no single quote, and if it drops none, it drops every double quote |
| ShellWords.ParseWords | helper/shell.go:79-132 | any line of bare and quoted stretches is taken apart at white space outside quotes, however much of it; quotes go, what is in them stays; only an empty last word is lost |
| ShellWords.QuoteThenParse | helper/shell.go:22-132 | a command of non-empty words comes back if and only if no word has a double quote and none begins and ends with a single one |
| ShellWords.QuotesAreLost | helper/shell.go:38-40 | a word in single quotes, and one with a double quote, that do not come back |
| Macros.ReplaceMacros | helper/macros.go:10-99 | the scan terminates and computes the expansion |
| Macros.PiecesAreTemplate | helper/macros.go:24-44 | the literal and bracketed pieces, in order, are the template |
| Macros.ExpandInOrder | helper/macros.go:24-97 | text, then a field, then the rest: each contributes its own value, in order |
| Macros.ExpandPlain | helper/macros.go:25-34 | text without opening, or without closing, brackets stays |
| Macros.PlainField | helper/macros.go:37-73 | `{key}` contributes the value of the macro, or stays as it is when there is none |
| Macros.IgnoredTail | helper/macros.go:39-60 | so does `{key:x}` without a second colon |
| Macros.PlainTemplate | helper/macros.go:24-97 | in a template, the value takes the place of the field |
| Macros.OddField | helper/macros.go:45-94 | a field whose width is no number, or whose modifier is neither `left` nor `right`, stays as it is |
| Macros.NoMatchNoChange | helper/macros.go:62-73 | a template in which no field names a macro stays as it is |
| Macros.FixedWidth | helper/macros.go:74-90 | `left:N` and `right:N` contribute exactly N bytes, that end of the value or all of it after zeros; a negative N panics |
| Macros.PanicsExactlyWhen | helper/macros.go:74-90 | expansion panics if and only if a macro is asked for with a negative width |
| GitStatus.ParseGitStatus | project/status.go:25-88 | the loop with its three flags computes the parse |
| GitStatus.ParseEncode | project/status.go:25-88 | the raw encoding of any list of well-formed records is read back as that list, source and destination the right way round |
| GitStatus.ParseReadsPrefix | project/status.go:34-86 | from any input that does not panic, what is read are well-formed records whose encoding is the beginning of that input |
| GitStatus.PanicsExactlyWhen | project/status.go:48-60 | parsing panics if and only if, after the lines of well-formed records, a header comes with an empty status field |
| UploadScript.HeaderOpens | cmd/upload.go:46-48 | every heading that is written opens its own section when read |
| UploadScript.UploadOptions.LoadFromText | cmd/upload.go:88-170 | the line loop computes the scan |
| UploadScript.GoodEffect | cmd/upload.go:94-129 | storing the text read for an exportable option gives that option back, whatever the options were before, and changes no other |
| UploadScript.UploadOptions.Export | cmd/upload.go:173-245 | writes the sections, in order; title and description only before publishing |
| UploadScript.SectionRun | cmd/upload.go:131-169 | reading one section stores what came before and collects the section's own text |
| UploadScript.LoadSection | cmd/upload.go:94-169 | lines of text under any heading: the title is the first line, the description all of them, issues are joined by commas, reviewers and copies are listed, one word switches draft and private |
| UploadScript.LoadExport | cmd/upload.go:88-245 | reading an exported script sets every option that was set and leaves the others as they were; after publishing, title and description are left as they were too, and nothing else |
| UploadScript.LoadNeat | cmd/upload.go:131-169 | whatever is read, no option has a line that ends in a blank, or a later line that starts with '#' |
| UploadScript.LoadExportExactly | cmd/upload.go:88-245 | a script read into fresh options gives all of them back if and only if they are exportable |
| UploadScript.HashTitleIsLost | cmd/upload.go:159-161 | a title that starts with '#' does not come back |
| UploadScript.LoadKeeps | cmd/upload.go:131-169 | reading a script keeps every title and description, if and only if it holds no text under a heading for one of them |
| UploadScript.PublishedKeeps | cmd/upload.go:173-195 | for options as any script loads them, the published script keeps every title and description, if and only if no exported option begins with such a heading and has text after it |
| UploadScript.HeadingRewritesTitle | cmd/upload.go:136-154 | two reviewers whose published script rewrites the title |
| UploadScript.PublishedWithoutHeadings | cmd/upload.go:173-195 | whatever the options, the published script keeps both when no line of an option is such a heading |
| ObsoletePaths.FindObsoletePaths | workspace/repo-workspace.go:591-616 | sorts both lists in place and merges them with two indices |
| ObsoletePaths.ObsoleteIsDifference | workspace/repo-workspace.go:590-616 | the result is the sorted multiset difference, old minus new |
| ObsoletePaths.RepoWorkSpace.RemoveEmptyDirs | workspace/repo-workspace.go:676-692 | the upward loop terminates and removes empty directories up to the root |
| ObsoletePaths.RepoWorkSpace.RemoveObsoletePaths | workspace/repo-workspace.go:486-588 | disk and remaining paths after the loop are those of examining the obsolete paths one by one |
| ObsoletePaths.ReadProjectList | workspace/repo-workspace.go:409-418 | reads the non-empty trimmed lines |
| ObsoletePaths.RepoWorkSpace.UpdateProjectList | workspace/repo-workspace.go:385-454 | new disk and list; a failed save leaves the list as it was |
| ObsoletePaths.NeverBeyondRoot | workspace/repo-workspace.go:498-523 | no listed path leads out of the root or to it: those two checks never fire for a path inside |
| ObsoletePaths.PlacesOf | workspace/repo-workspace.go:472-484 | the git directory of a path lies below `.repo/projects`, by the path's own names |
| ObsoletePaths.RemovedOnly | workspace/repo-workspace.go:525-540 | whatever disappears belongs to the git directory of an obsolete path without a worktree, or is a directory above it left empty |
| ObsoletePaths.WorktreesStay | workspace/repo-workspace.go:525-570 | no worktree is removed, nor anything else outside `.repo/projects` |
| ObsoletePaths.RemainsMeans | workspace/repo-workspace.go:526-566 | an obsolete path stays listed while its worktree exists; when it goes, its git directory is gone |
| ObsoletePaths.RemainsOnly | workspace/repo-workspace.go:526-566 | without a worktree it stays only if its git directory cannot be removed |
| GitDirs.GitDirsNest | workspace/repo-workspace.go:472-484 | one git directory contains another's if and only if the other's path goes through the first one's path with ".git" |
| GitDirs.GoesWith | workspace/repo-workspace.go:526-539 | whatever lies in the git directory of an obsolete path without a worktree goes, unless it resists removal or holds something that does |
| GitDirs.GitDirLost | workspace/repo-workspace.go:526-539 | when nothing in it resists, such a git directory goes with all that is in it |
| GitDirs.LivingGitDir | workspace/repo-workspace.go:526-539 | a worktree outside `.repo` stays, and its git directory goes if and only if nothing in it resists removal and it lies in that of an obsolete path without a worktree, or holds nothing but such directories |
| GitDirs.NestedGitDirExists | workspace/repo-workspace.go:472-484 | `a` and `a.git/b` are such a pair |
| ProjectList.UpdateListed | workspace/repo-workspace.go:385-454 | after a run that saves, the list is what is read back of the projects' paths, sorted, and of the remaining obsolete ones |
| ProjectList.RemainsExactly | workspace/repo-workspace.go:500-570 | what stays listed is, in order, the obsolete paths that before the run have a worktree, or a git directory in which something resists removal; the removals for one path do not change this for another |
| ProjectList.DistinctExactly | workspace/repo-workspace.go:409-444 | after a run the list holds no path twice, if and only if, by the list and the disk before it, what would be read back of the projects' paths is distinct, and distinct from what would be read back of the obsolete paths with a worktree or a blocked git directory |
| ProjectList.BlankDoubles | workspace/repo-workspace.go:409-444 | two clean, distinct paths that are listed as one path twice |
| ProjectList.ListableNeverClashes | workspace/repo-workspace.go:385-454 | clean, distinct paths without line feeds and outer blanks are listed as they are, and never twice |
| ProjectList.ListStaysDistinct | workspace/repo-workspace.go:385-454 | over any history of runs and outside changes, the list never holds a path twice, if and only if no run that saves starts in a state with such a clash |
| ProjectList.ListableHistory | workspace/repo-workspace.go:385-454 | over any history whose projects have clean, distinct paths without line feeds and outer blanks, from such a list on, the list never holds a path twice |
| ProjectList.ListedWhileThere | workspace/repo-workspace.go:385-454 | over any history, a listed path inside the root stays listed while its worktree exists |

## Left out

- SyncScheduler: the error list of `LocalHalf`, which several goroutines append to without a lock, and `NetworkHalf`; a project's sync is a begin and a return.
- MergedPathsAreClean: mirrors, where only one project per name is kept; projects given as arguments; groups and existence are an arbitrary choice of projects.
- SyncTwice: assumes that the same published refs resist removal in both runs, and that rev-list does not fail.
- SyncReachesTarget: rebase and merge are assumed to put the target among the ancestors of the new tip when they succeed; conflicts and the content of commits are not modelled.
- LivingGitDir: assumes that no listed path lies in `.repo`, where worktrees would be removed with the directories around them.
- RemainsExactly: assumes that no obsolete path lies in `.repo`, for the same reason; so do `DistinctExactly` and `ListStaysDistinct`, while `UpdateListed`, `RemainsOnly` and `ListableHistory` hold for all paths.
- HardResetKeepsCommits: other refs than the old tracking branch may keep a commit reachable too, and are not counted; a revision resolves to the ref of that full name or to the commit of that id; other short names that go-git resolves are not modelled.
- ProjectSync.Project.SyncLocal: failures to save the configuration, which the source ignores, and the installation of Gerrit hooks.
- FixupFixesUp: fixup, flattening and freezing are modelled on values; the source updates nested structs through references, and nothing else can see them meanwhile.
- ManifestLoad: XML decoding and files are a map from file names to manifests, and resolving an include name is a map too.
- ManifestVisit: how a checked-out project's revision resolves is a map from paths to results.
- CleanAfterSmudge: assumes values without a dollar sign, for the reason that `DollarValueBreaks` gives; `git log`, which supplies the values, is a constant map, and reading and writing streams is left out.
- CompareVersion: `int` is 64 bits wide; `ValidateGitVersion` is left out.
- QuoteThenParse: empty words are shut out because quoting them panics; invalid UTF-8 is left out.
- ReplaceMacros: running out of memory for a huge width.
- UploadScript.UploadOptions.LoadFromText: warnings, and lower-case letters outside ASCII, of which only those that fold to ASCII matter.
- ObsoletePaths.RepoWorkSpace.UpdateProjectList: symbolic links and invalid UTF-8; what cannot be removed is a fixed set during one run; the lock file is reduced to whether saving fails.
- RemoveObsoletePaths: error messages, which only go to the log.
- IndexByName, MatchGroups, RemoteMap, UploadForReviewWithConfirm, the message box and the upgrade downloader: plumbing and user interface.
- ParseGitURL and URLJoin: they would need a model of lazy regular expressions, and the port handling leaves a round trip under many side conditions only.
- project.Join: reached only behind unimplemented submodule support.
