# Jewelcase, verified

A Dafny model of the parts of Jewelcase, a self-hosted music server, whose correctness is not plain from any one
function, with proofs of what each promises. Code that changes state is modelled as classes and loops, code that
computes as functions, and threads, devices and processes that run beside each other as steps of one state machine.
`dafny verify dfyconfig.toml` checks everything.

- **Playlist edits and their undo.** `Playlist` is the web client's edits and the undo it makes of one;
  `Weaves` and `PlaylistUndo` prove that the undo of any edit that applies gives back the very list, with no op of it
  refused. A list is seen as what stays, woven with the runs that move: each undo move takes one run past only what
  stays. `PlaylistNames` proves what an undo names, so that the server, which goes by names, restores the list too.
  `PlaylistCore` is the Rust core's edits, which agree with the device's.
- **Scopes.** `Scopes` is which files a scan's scopes visit and how a request's scopes are coalesced; comparing with
  only the last one kept loses no file and leaves no scope another covers.
- **The walk and the scan.** `Walks` is the resumable walk: its stack loop yields exactly the recursive pre-order,
  and resumed after any path, in the tree or not, exactly what the full walk yields after it; `WalkTrees` says what
  that is in terms of the tree. `ScanSteps`,
  `ScanSafety`, `ScanResumes` and `Scans` are a scan's runs, with stops, kills and restarts from the saved cursor:
  nothing behind the cursor is lost. `ScanTrees` says what is in the store in terms of the trees scanned.
- **Takeover.** `Progress` is a device's reports and `Takeover` the devices, their connections and the server: which
  device takes itself for the one that plays; `TakeoverPlays` which one's player plays.
- **Background jobs.** `JobSteps`, `JobSafety` and `Jobs` are passes side by side that claim files, decode them and
  store what comes of it, and `JobVerdicts` which results they store; `PoolSteps` and `Pools` the pool of threads that runs every library's jobs in turn.
- **Listens.** `Listens` sends plays to ListenBrainz, splitting what it refuses.
- **Sidecars.** `Sidecars` is which cover, artist image and biography apply to a folder, `SidecarStamps` a track's
  lyrics and stamp, `SidecarNames` which names are which, and `SidecarResolvers` the resolver that remembers what it located and read.
- **Order and shape.** `SortRows` is the order every device sorts a track list in, `Waveform` the heights of a
  track's bins.
- **Streams and pages.** `Decodes` puts frames back together from a pipe's reads; `Entries` pages a folder of any
  size while holding one page, and `Utf8Names` says which names a page may hold.
- **The watchdog.** `WatchdogSteps`, `WatchdogSafety` and `Watchdogs` are the pool's children and the watchdog that
  kills those that stall, with the system free to give a reaped pid to another process.
- `Wrappers`, `Orders`, `Sequences`, `Sorting`, `Paths` and `Bytes` are what these share.

A class that runs beside others keeps ghost `states` and `events`: every change it makes is a step of the state
machine, and a call to `Others` lets the rest take any steps of theirs. So what is proved over all runs of the
machine holds of the loops.

Where the code and its documentation, or what one would expect of it, differ:

- A scope left because its root is silent is to be returned for a retry, and a scan to complete only if none is. But a run
  interrupted after it left such a scope behind starts past it the next time, and can complete without it
  (crates/scanner/src/scan.rs:104-108, :145-153, :217-220). `ScanSafety.ForgottenScope` is such a run;
  `ScanResumes.GotThroughAllUnlessResumedPast` says just when a completed scan got through every scope, and
  `ScanResumes.WholeUnlessResumedPast` that it then has every scope whole,
  `ScanSafety.MissedOnlyIfForgotten` that nothing else is ever missing, and `ScanSafety.EveryFolderProcessed` that
  nothing is when every root answers.
- The pool's schedule is to have nothing to run only when there are no jobs. It is so too for a pool of size 0 with
  jobs of two libraries, whose one thread ends (crates/scanner/src/pool.rs:115-119, :125-126, :137-138): `Pools.Schedule.RunNext`
  says just when. The host's pool is never of size 0.
- The core takes an add of no items, which the device refuses (web/src/lib/playlist-ops.ts:74).
  `PlaylistCore.OpAgreesUnless` says that the two differ in nothing else.
- A device that lost its connection keeps taking itself for the active one until it has another
  (`Takeover.CutOffStaysActive`). `Takeover.ActiveAsNamed` says when a device, connected or not, agrees with the
  server, and `Takeover.OneActiveUnlessCutOff` when at most one of all devices is active; `Takeover.ActiveExactly` and
  `Takeover.OneActiveUnlessTwoHold` say it with starts refused too, which may leave a connected device active that the
  server does not name (`Takeover.RefusedStaysActive`).

## Model

| member | source | states |
|---|---|---|
| `PlaylistUndo.UndoRestores` | web/src/lib/playlist-ops.ts:34-69 | For every list and every edit that applies, the undo is made, applies in full with its own resolve, and gives back exactly the list |
| `PlaylistUndo.RefusedAlike` | web/src/lib/playlist-ops.ts:56-60 | Making the undo of an edit that is refused throws what the edit throws |
| `PlaylistUndo.UndoEdit` | web/src/lib/playlist-ops.ts:47-69 | Undoing a whole edit, each op's undo before those of the ops ahead of it, restores the list, whatever other undos share the map of what was removed |
| `PlaylistUndo.UndoOp` | web/src/lib/playlist-ops.ts:93-138 | The undo of any one op restores the list it was applied to |
| `PlaylistUndo.UndoMove` | web/src/lib/playlist-ops.ts:116-136 | A move of any positions, scattered or not, is undone by one move per run |
| `PlaylistUndo.UndoMoves` | web/src/lib/playlist-ops.ts:117-135 | Left-going runs in playlist order and then right-going runs last first bring every run home, wherever the runs were moved together |
| `PlaylistUndo.UndoLeft` | web/src/lib/playlist-ops.ts:121-131 | After the first i moves left, just the first i runs are home |
| `PlaylistUndo.UndoRight` | web/src/lib/playlist-ops.ts:132-135 | The moves right, last first, leave the runs before the last ones done where they were |
| `PlaylistUndo.UndoRemove` | web/src/lib/playlist-ops.ts:107-115 | One add per run, in playlist order, puts the very items removed back where they were |
| `PlaylistUndo.UndoAdded` | web/src/lib/playlist-ops.ts:101-106 | Removing as many as an add made, from where it put them, restores the list, and nothing is to be done for an add that expanded to nothing |
| `PlaylistNames.UndoneNamed` | web/src/lib/playlist-ops.ts:34-69 | Each add of an undo names, item by item and in order, just the removed items that it brings back |
| `PlaylistNames.UndoRestoresView` | web/src/lib/playlist-ops.ts:34-69 | Seen through any function of an item, whatever resolve gives for names what they name, the undo gives the list as it was seen |
| `PlaylistNames.UndoRestoresNames` | web/src/lib/playlist-ops.ts:34-39 | So the server, which goes by the names, has the names it had before the edit |
| `PlaylistNames.UndoRestoresByName` | web/src/lib/playlist-ops.ts:34-54 | And any resolve that takes names back to their items restores the list itself |
| `Weaves.HomeWeave` | web/src/lib/playlist-ops.ts:111-124 | A list is what a selection leaves of it woven with the selection's runs, each at its home |
| `Weaves.MoveRun` | web/src/lib/playlist-ops.ts:83-88 | Moving one run of a weave moves it past only what stays, so no run changes its turn |
| `Playlist.SelectionSelects` | web/src/lib/playlist-ops.ts:140-149 | Positions are taken just when there are some, each in range and none twice, and give themselves ascending |
| `Playlist.SplitRuns` | web/src/lib/playlist-ops.ts:162-170 | The loop splits ascending positions into the specified runs |
| `Playlist.RunsFlat` | web/src/lib/playlist-ops.ts:161-170 | The runs hold just the positions, in the same order |
| `Playlist.RunsApart` | web/src/lib/playlist-ops.ts:161-170 | Each run is of consecutive positions, and no two touch, so they go as far as they can |
| `Playlist.ApplyOps` | web/src/lib/playlist-ops.ts:24-32 | The loop applies each op to the list the ones before it left, and stops at the first refused |
| `Playlist.AppliedConcat` | web/src/lib/playlist-ops.ts:20-32 | Edits run one after another are one edit of all their ops |
| `Playlist.RestoreRuns` | web/src/lib/playlist-ops.ts:110-114 | Pushes one add per run, at its old start, named with an array of its own |
| `Playlist.MoveRunsBack` | web/src/lib/playlist-ops.ts:121-135 | Pushes the moves back of left-going and right-going runs, and of none already in place |
| `Playlist.InvertOp` | web/src/lib/playlist-ops.ts:93-138 | Makes the undo specified of each kind of op |
| `Playlist.InvertOps` | web/src/lib/playlist-ops.ts:41-69 | The loop makes the undo of a whole edit, each op's from the list it was applied to |
| `PlaylistCore.EditAgrees` | crates/core/src/playlist.rs:53-121 | An edit whose adds name something gives the same list in the core as on the device, and is refused by both or neither |
| `PlaylistCore.OpAgrees` | crates/core/src/playlist.rs:60-81 | One such op does the same in both, and is refused for the same reason |
| `PlaylistCore.OpAgreesUnless` | crates/core/src/playlist.rs:63-68 | The two take an op differently just when it is an add of nothing at a place that fits |
| `PlaylistCore.MoveGathers` | crates/core/src/playlist.rs:73-79 | A move is a permutation that puts the picked items together at its place in playlist order and leaves the others in order |
| `PlaylistCore.OrderGivenIsNothing` | crates/core/src/playlist.rs:98-113 | The order positions are given in changes nothing |
| `PlaylistCore.SelectedAlike` | crates/core/src/playlist.rs:99-113 | Core and device select the same positions, and refuse the same ones alike |
| `PlaylistCore.SplitCounts` | crates/core/src/playlist.rs:83-96 | What is taken out and what is left are the whole list between them |
| `PlaylistCore.Selection` | crates/core/src/playlist.rs:99-113 | The loop sorts, and refuses the first position out of range or given twice |
| `PlaylistCore.Without` | crates/core/src/playlist.rs:83-96 | One pass over list and positions gives the rest and what was taken |
| `PlaylistCore.ApplyOp` | crates/core/src/playlist.rs:60-81 | Applies one op, or refuses it |
| `PlaylistCore.ApplyOps` | crates/core/src/playlist.rs:53-58 | The loop applies a whole edit, or refuses it at its first bad op |
| `Paths.PathsTotal` | crates/scanner/src/discover.rs:173-178 | The order of paths by component is total |
| `Paths.PathOrder` | crates/scanner/src/discover.rs:173-178 | One path comes before another just if the first component they differ in comes before by its bytes, or it ends there |
| `Paths.DoneBelow` | crates/scanner/src/discover.rs:145-170 | A folder before the cursor, and not on the way to it, holds nothing after it |
| `Scopes.CoversExactly` | crates/scanner/src/scope.rs:42-61 | Within a root one scope covers another just when it visits every file the other does |
| `Scopes.CoalesceScopes` | crates/scanner/src/queue.rs:139-157 | The loop over the sorted scopes keeps what the specification keeps |
| `Scopes.OnlyTheLast` | crates/scanner/src/queue.rs:140-142 | If any scope kept covers the next, the last one kept does |
| `Scopes.CoalescedApart` | crates/scanner/src/queue.rs:137-157 | The scopes kept are strictly sorted and none covers another |
| `Scopes.CoalescedCovers` | crates/scanner/src/queue.rs:137-157 | Each scope given is covered by one kept |
| `Scopes.CoalescedGiven` | crates/scanner/src/queue.rs:137-157 | Each scope kept was given |
| `Scopes.CoalescedVisits` | crates/scanner/src/queue.rs:137-157 | Coalescing changes nothing about which files are visited |
| `Scopes.Queue.RetryLater` | crates/scanner/src/queue.rs:44-54 | A waiting retry takes scopes in, keeping its time and trigger; otherwise one is made |
| `Scopes.RetryVisits` | crates/scanner/src/queue.rs:44-54 | A retry that takes scopes in holds just the files of both |
| `Walks.Walk.Next` | crates/scanner/src/discover.rs:180-265 | The stack loop yields the next item of the recursive walk, and ends |
| `Walks.Walk.Drain` | crates/scanner/src/discover.rs:180-265 | All the items to the end are those of the recursive walk, in order |
| `Walks.VisitIncreasing` | crates/scanner/src/discover.rs:173-183 | A walk, resumed or not, yields its folders in strictly increasing order by component, so each once |
| `Walks.ResumedVisit` | crates/scanner/src/discover.rs:145-170 | Resumed after any path, even one no longer there, a walk yields exactly what the full walk yields after it, and fails at what it cannot list on the way |
| `Walks.WalkResumes` | crates/scanner/src/discover.rs:145-265 | The same of a walk of a scope, excluded or not |
| `Walks.VisitsEvery` | crates/scanner/src/discover.rs:246-249 | A full walk of a subtree yields every folder in it |
| `Walks.VisitsOnly` | crates/scanner/src/discover.rs:246-249 | And nothing else |
| `WalkTrees.YieldsTree` | crates/scanner/src/discover.rs:184-264 | A full walk of a subtree has an item just for each folder in it, at its place, that says what is there |
| `WalkTrees.ItemTells` | crates/scanner/src/discover.rs:222-260 | It says of a folder listed its subfolders and all its audio files, sorted; of one gone that it is not listed, and of one that cannot be read that it failed |
| `WalkTrees.YieldsOne` | crates/scanner/src/discover.rs:246-249 | A walk of one folder yields just that folder, with what it holds |
| `WalkTrees.YieldsExcluded` | crates/scanner/src/discover.rs:184-264 | A walk of an excluded scope yields its folder as one that is gone |
| `ScanSafety.StepKeeps` | crates/scanner/src/scan.rs:113-336 | Every step of a scan, and every stop, kill and failure, keeps what is behind the cursor whole |
| `ScanSafety.SavedForward` | crates/scanner/src/scan/writer.rs:55-65 | Over all runs of a scan the saved cursor never moves back, and nothing saved is lost |
| `ScanSafety.NothingPassedIsLost` | crates/scanner/src/scan.rs:258-260 | At any moment, so after any kill, each folder the saved cursor is past is saved whole: every file of it and its reconcile |
| `ScanSafety.EndsHonestly` | crates/scanner/src/scan.rs:145-224 | A run that ends has each scope from its start on whole, or a link's, or returned as unanswered, and completes just if none is returned |
| `ScanSafety.EveryFolderProcessed` | crates/scanner/src/scan.rs:83-109 | If every root answers, a completed scan has every listed folder of every scope whole, however often it was stopped or killed |
| `ScanSafety.MissedOnlyIfForgotten` | crates/scanner/src/scan.rs:145-153 | A completed scan misses only a scope left unanswered before where its last run started |
| `ScanSafety.ForgottenScope` | crates/scanner/src/scan.rs:104-108 | A run of stops and restarts that completes with a scope never walked |
| `ScanResumes.GotThroughAllUnlessResumedPast` | crates/scanner/src/scan.rs:113-153 | A completed scan got through every scope just if, as its last run started, no scope left unanswered lay behind where it resumed |
| `ScanResumes.WholeUnlessResumedPast` | crates/scanner/src/scan.rs:83-109 | If none did, every scope but a link's is whole in the store |
| `ScanResumes.StepParts` | crates/scanner/src/scan.rs:145-224 | Every step keeps the scopes so far parted into those got through, all behind the saved cursor, and those skipped |
| `ScanTrees.EveryFileStored` | crates/scanner/src/scan.rs:83-224 | If every root answers, a completed scan has in its store each audio file of each listed folder of every tree, and each folder's reconcile, whatever the stops and kills |
| `ScanTrees.StoredUnlessResumedPast` | crates/scanner/src/scan.rs:83-224 | And whether they answer or not, if no scope left unanswered lay behind where its last run started |
| `ScanTrees.WholeStored` | crates/scanner/src/scan.rs:262-336 | A scope whole by what its walk yields is whole by its tree |
| `ScanTrees.SavedOnlyTrees` | crates/scanner/src/scan.rs:262-336 | At any moment nothing is saved but of files and folders of the trees, and of no scope that a link leads to unless it is excluded |
| `ScanTrees.StopsLoseNothing` | crates/scanner/src/scan.rs:191-224 | What a scan has done stays saved or in hand unless it is killed or fails, and once it stops or ends all of it is saved |
| `ScanTrees.ReturnsWhatItLeft` | crates/scanner/src/scan.rs:145-224 | A run returns for a retry just the scopes that it left because their root did not answer, each once and in order |
| `Scans.Scan.Flush` | crates/scanner/src/scan/writer.rs:55-65 | The batch and the cursor are saved together, or neither is |
| `Scans.Scan.Checkpoint` | crates/scanner/src/scan/writer.rs:43-53 | A checkpoint may flush, which may fail, and moves nothing else |
| `Scans.Scan.ProcessDirectory` | crates/scanner/src/scan.rs:262-336 | The loop over a folder's files takes steps of the scan, and passes the folder only when it is done whole |
| `Scans.Scan.WalkScope` | crates/scanner/src/scan.rs:177-199 | The loop over a scope's walk takes steps of the scan from where it resumes |
| `Scans.Scan.StopWithin` | crates/scanner/src/scan.rs:191-199 | A stop inside a scope flushes what is in hand, or ends the scan if that fails |
| `Scans.Scan.StopBefore` | crates/scanner/src/scan.rs:145-148 | A stop between scopes leaves nothing unsaved |
| `Scans.Scan.Pass` | crates/scanner/src/scan.rs:191-213 | A scope done is saved, and then the cursor past it, each of which may fail |
| `Scans.Scan.Leave` | crates/scanner/src/scan.rs:191-209 | A scope whose root went is saved as far as it was done, and noted for a retry |
| `Scans.Scan.Fail` | crates/scanner/src/scan/writer.rs:73-96 | An error of the store ends the scan at the cursor saved |
| `Scans.Scan.ScanScopes` | crates/scanner/src/scan.rs:121-224 | One whole run takes steps of the scan only, and ends stopped, even after its last scope, with an error, or completed or suspended with what it returns for a retry |
| `Progress.Tracker.UserStarted` | web/src/lib/progress.ts:39-42 | The next report takes over, by the user |
| `Progress.Tracker.UserPaused` | web/src/lib/progress.ts:44-50 | A takeover by the user that was not sent is dropped |
| `Progress.Tracker.NewConnection` | web/src/lib/progress.ts:52-57 | On a new connection the device is not active and the next report takes over |
| `Progress.Tracker.SendProgress` | web/src/lib/progress.ts:59-74 | What is sent, and that only a takeover that went makes the device active |
| `Progress.Tracker.HearState` | web/src/lib/progress.ts:76-103 | The device and its player's action after any state are as specified |
| `Progress.HeardAction` | web/src/lib/progress.ts:76-103 | Of a state that counts while it plays, a player is told to stop just if another device is named and the user has no start due, and to report in just three cases |
| `Progress.HeardState` | web/src/lib/progress.ts:84-103 | A state that does not name the device within five seconds of its start changes nothing; any other settles whether it is active, and leaves a start due just by the user's hand or for the report called for |
| `Progress.PausedDrops` | web/src/lib/progress.ts:44-50 | A pause drops a start due by the user's hand, and no other |
| `Progress.ConnectedAnew` | web/src/lib/progress.ts:52-57 | On a new connection each report but a stop takes over, each state counts, and the device is not active |
| `Takeover.OnePlays` | web/src/lib/progress.ts:1-10 | In every reachable state with nothing on its way, if the server took every start, a connected device is active just if the server names it, so at most one is |
| `TakeoverPlays.PlaysAsNamed` | web/src/lib/progress.ts:1-10 | With nothing on its way, no start refused and none due, a connected device whose player plays is the one the server names, so no two such play |
| `TakeoverPlays.SendsStart` | web/src/lib/progress.ts:59-74 | A start due goes with the next report but a stop, and makes the device active; a report goes just if a start is due or the device is active |
| `TakeoverPlays.TakesOver` | web/src/lib/progress.ts:1-10 | A start the server takes has it name the device, and say so |
| `TakeoverPlays.NamedByStart` | web/src/lib/progress.ts:66-67 | In every run the server comes to name a device just by a start of it, and never by a stop |
| `TakeoverPlays.StartLost` | web/src/lib/progress.ts:76-103 | A start due is lost only by going, by the user's pause, or by a state that counts against it |
| `TakeoverPlays.ActiveOnlySince` | web/src/lib/progress.ts:59-91 | A device is active only by a start it sent, or a state that names it that it heard, since it last connected |
| `Takeover.StepAgrees` | web/e2e/fixtures.ts:957-978 | Whatever the server does with reports, the last state on its way to a device is the server's |
| `Takeover.StepConfirms` | web/src/lib/progress.ts:84-87 | While every start is taken, an unconfirmed takeover or its confirmation is always on its way |
| `Takeover.DisagreesWhileUnconfirmed` | web/src/lib/progress.ts:59-63 | With starts refused too, a connected device disagrees with the server just while a takeover from it is unconfirmed |
| `Takeover.UnconfirmedSettles` | web/src/lib/progress.ts:84-91 | The first state heard once the takeover could have been confirmed settles it |
| `Takeover.DeliveryEnds` | web/src/lib/progress.ts:1-10 | Each delivery leaves fewer messages on their way, counting those it brings about, so the devices do come to agree |
| `Takeover.RefusedStaysActive` | web/src/lib/progress.ts:59-63 | A run in which a refused start leaves a connected device active that the server does not name, with nothing on its way |
| `Takeover.CutOffStep` | web/src/lib/progress.ts:52-103 | While a device is disconnected only its connecting changes whether it is active |
| `Takeover.CutOffRun` | web/src/lib/progress.ts:52-103 | Over any stretch of a run without that it stays as active as it was |
| `Takeover.DisconnectedActive` | web/src/lib/progress.ts:52-57 | A disconnected device is active just if it was cut off active and has not connected since |
| `Takeover.ActiveExactly` | web/src/lib/progress.ts:52-103 | In every reachable state with nothing on its way, starts refused or not, a device is active just if it is connected and named or unconfirmed, or was cut off active |
| `Takeover.OneActiveUnlessTwoHold` | web/src/lib/progress.ts:1-10 | So at most one of all the devices is active just if that holds of no two |
| `Takeover.ActiveAsNamed` | web/src/lib/progress.ts:52-57 | If the server took every start, a device is active just as the server names it exactly if it is connected, or was cut off active or not as the server now names it or not |
| `Takeover.OneActiveUnlessCutOff` | web/src/lib/progress.ts:1-10 | And at most one of all the devices is active exactly if no two are, connected, the one named or, disconnected, cut off active |
| `Takeover.CutOffStaysActive` | web/src/lib/progress.ts:52-57 | A device cut off takes itself for active while another is |
| `JobSafety.InHandIsClaimed` | crates/scanner/src/jobs.rs:110-126 | In every interleaving the files in hand are just those of live claims, and no two claims are of one file |
| `JobSafety.DecodesUndecoded` | crates/scanner/src/jobs.rs:157-163 | What a pass decodes has no stored result, and no other pass has it in hand |
| `JobSafety.DecodedOnce` | crates/scanner/src/jobs.rs:157-163 | A file whose result was kept is not decoded again until the result is forgotten |
| `JobSafety.TookLimitAndWaiting` | crates/scanner/src/jobs.rs:139-148 | A pass with a full fetch takes its limit and as many again as were waiting, while other passes add to those waiting |
| `JobSafety.DoesWholeLimit` | crates/scanner/src/jobs.rs:139-148 | Such a pass decodes and judges just its limit, unless it backs off, the store fails, or more prove unopenable than were waiting |
| `JobSafety.WithinLimit` | crates/scanner/src/jobs.rs:201-204 | No pass decodes and judges more than its limit, nor handles more than it took |
| `JobSafety.NotTriedEarly` | crates/scanner/src/jobs.rs:29-30 | From its failure to open until its wait is over no pass decodes a file |
| `JobSafety.JudgedTwice` | crates/scanner/src/jobs.rs:281-289 | A failure that may pass gives a file an empty result only as the second, with no success between |
| `JobVerdicts.FailureExactly` | crates/scanner/src/jobs.rs:271-295 | Which failures are verdicts, which leave a file to wait, and which end the pass, by cause, by whether the file opens and by whether its root answers |
| `JobVerdicts.FailureLeaves` | crates/scanner/src/jobs.rs:205-222 | Where each leaves the pass, and that none stores anything by itself |
| `JobVerdicts.EmptyOnlyOfVerdict` | crates/scanner/src/jobs.rs:1-14 | Over all runs a file has an empty result only of rejected content that opens, or of a second attempt that broke off within reach with no success between |
| `JobVerdicts.StoredOnlyOfDecode` | crates/scanner/src/jobs.rs:205-222 | A result is stored only of a decode of that file by the pass that stores it |
| `JobVerdicts.KeepingEnds` | crates/scanner/src/jobs.rs:205-222 | A pass with a result to keep stores it, empty just for a verdict, or the store fails |
| `JobVerdicts.StruckExactly` | crates/scanner/src/jobs.rs:281-289 | A file is struck exactly from a first attempt that broke off within reach until it decodes or a second attempt is its verdict |
| `JobVerdicts.WaitsOnlyFor` | crates/scanner/src/jobs.rs:247-269 | A file waits only because it did not open within reach, for one wait from then, and until it decodes or is judged |
| `JobVerdicts.CountsItsOwn` | crates/scanner/src/jobs.rs:32-51 | A pass reports as done, failed and skipped just the results, the verdicts and the waits it gave, and that it backed off just if it did |
| `JobSafety.StepKeeps` | crates/scanner/src/jobs.rs:163-225 | Every step of any pass keeps claims exclusive, what is taken undecoded, and the counts |
| `JobSafety.TakesEnough` | crates/scanner/src/jobs.rs:168-176 | What a pass passes over is in other hands or was waiting, so its share remains |
| `JobSteps.FetchSize` | crates/scanner/src/jobs.rs:143-148 | What is fetched is at least what is in hand, so the share is never below zero |
| `Jobs.Retries.Fetch` | crates/scanner/src/jobs.rs:139-148 | Forgets just the waits that are over, and makes room for the rest twice |
| `Jobs.Retries.Take` | crates/scanner/src/jobs.rs:157-182 | Under the lock, among any steps of other passes, the take is a take of the machine |
| `Jobs.Retries.Sift` | crates/scanner/src/jobs.rs:172-176 | The filter and take loop stops at the share and puts nothing past it in hand |
| `Jobs.Retries.Judge` | crates/scanner/src/jobs.rs:271-295 | The outcome and the strikes left are those of the machine's step for the failure |
| `Jobs.Retries.Failed` | crates/scanner/src/jobs.rs:247-269 | What comes of a failed decode is the machine's step for it, and a store error leaves the waits as they were |
| `Jobs.Retries.DecodeOne` | crates/scanner/src/jobs.rs:205-222 | One file's decode, with its claim kept until its result is |
| `Jobs.Retries.RunPass` | crates/scanner/src/jobs.rs:184-225 | A whole pass among any others takes steps of the machine only, gives every file back, and reports what it did |
| `PoolSteps.WithinShare` | crates/scanner/src/pool.rs:111-120 | In every run no library runs more than the pool's size of passes at once, and with two libraries a thread is left though all of one's passes hang |
| `PoolSteps.TakenInTurn` | crates/scanner/src/pool.rs:127-143 | A job that stays due and open sees at most one other take for each other job before it is taken |
| `PoolSteps.IdleWaits` | crates/scanner/src/pool.rs:25-33 | A job whose pass did nothing is taken by no thread before its wait is over, whatever its other passes do |
| `PoolSteps.WaitsOnlyIdle` | crates/scanner/src/pool.rs:156-160 | And a job is not due only within its wait from the end of a pass that did nothing, so any other is due again at once |
| `PoolSteps.TakeNears` | crates/scanner/src/pool.rs:135-140 | Any other take while it is ready brings it nearer its turn |
| `PoolSteps.NoneReady` | crates/scanner/src/pool.rs:135-139 | Nothing is found just when nothing is due and open: every job is looked at |
| `PoolSteps.FirstReadyIsFirst` | crates/scanner/src/pool.rs:135-136 | What is found is ready, and nothing looked at before it is |
| `PoolSteps.SomeOpen` | crates/scanner/src/pool.rs:125-126 | A free thread leaves the library of some job below its share |
| `PoolSteps.CountedWhileBusy` | crates/scanner/src/pool.rs:157 | The count a thread takes its pass off is never 0 |
| `PoolSteps.StepKeeps` | crates/scanner/src/pool.rs:127-162 | Each take and finish keeps every library's count that of its threads, and within the size |
| `Pools.Schedule.Find` | crates/scanner/src/pool.rs:132-136 | The search in turn finds the first job due and open |
| `Pools.Schedule.Soonest` | crates/scanner/src/pool.rs:137-138 | The earliest any open job is due, or none if none is open |
| `Pools.Schedule.Take` | crates/scanner/src/pool.rs:127-143 | Takes that job, or says how long until one is due, which is never no time at all |
| `Pools.Schedule.Finish` | crates/scanner/src/pool.rs:156-160 | Takes the pass off its library's count, and has an idle job wait |
| `Pools.Schedule.RunNext` | crates/scanner/src/pool.rs:122-162 | Among any other threads, returns nothing just when there are no jobs or the size is 0, and no wait just when a job was ready |
| `Listens.Send` | plugins/listenbrainz/src/listens.rs:54-69 | Sends a batch as specified, cut short where the service fails, and counts just its bad listens |
| `Listens.Submit` | plugins/listenbrainz/src/listens.rs:41-52 | Sends all in batches of 1000 as specified, and counts just the bad listens |
| `Listens.PostsTakeGood` | plugins/listenbrainz/src/listens.rs:41-69 | The batches accepted hold just the good listens, each once, in order |
| `Listens.SubmitTakesGood` | plugins/listenbrainz/src/listens.rs:41-52 | So of a whole submission, and of one the service failed the first of them, each once |
| `Listens.CostByLength` | plugins/listenbrainz/src/listens.rs:44-46 | A batch of n costs at most 2n - 1 posts, and just that many if all are bad |
| `Listens.CostByBad` | plugins/listenbrainz/src/listens.rs:44-46 | With b bad listens it costs at most 1 and two a halving for each |
| `Listens.HalvingsIsLog` | plugins/listenbrainz/src/listens.rs:44-46 | Halvings are the logarithm to base 2, rounded up |
| `Listens.SubmitCost` | plugins/listenbrainz/src/listens.rs:41-52 | A submission costs a post for each thousand listens begun and at most twenty more for each bad one |
| `Listens.Deliver` | plugins/listenbrainz/src/lib.rs:71-87 | Just the plays heard enough and with a usable name are submitted, in order; those the service takes are counted neither short, unnamed nor rejected, and each other play is counted once |
| `Listens.CountsByHalf` | plugins/listenbrainz/src/listens.rs:27-32 | A play counts just if four minutes were heard, or half of a track of known length, to the millisecond below |
| `Listens.SendableExactly` | plugins/listenbrainz/src/listens.rs:34-39 | A listen can be sent just if its title shows something, so does its artist or there are two or more, and none of them holds a NUL |
| `Listens.WherePlaces` | plugins/listenbrainz/src/lib.rs:71-87 | What is kept of plays is at increasing places, a place being one just if the play there is to be kept |
| `Listens.AllLanded` | plugins/listenbrainz/src/lib.rs:71-87 | The batches accepted hold just the plays heard enough, named and not refused, each once, in order |
| `Listens.AllPostsWithin` | plugins/listenbrainz/src/listens.rs:41-52 | No post holds more than a thousand listens |
| `Sidecars.AppliesFromNearest` | crates/scanner/src/sidecar.rs:202-222 | Each kind of sidecar that applies is that of the nearest folder with one, up to the root, and none just if none has |
| `Sidecars.NearestUnique` | crates/scanner/src/sidecar.rs:202-203 | There is one such folder |
| `Sidecars.ChangesUnlessOverridden` | crates/scanner/src/sidecar.rs:174-178 | A change in a folder changes what applies below just if its own sidecar of a kind changes and no nearer folder has one |
| `Sidecars.OneBest` | crates/scanner/src/sidecar/locate.rs:80-122 | A folder has at most one best candidate of a kind |
| `SidecarNames.CandidateExactly` | crates/scanner/src/sidecar/locate.rs:89-111 | A biography is `artist.txt` and an image `cover` or `artist` with an image extension, its rank, in any case, and nothing else is a candidate |
| `SidecarNames.OwnExactly` | crates/scanner/src/sidecar/locate.rs:80-122 | A folder has a sidecar of a kind just if a candidate of it is of 1 byte to 32 MiB, and it is the one of least rank, and of those the first by its bytes |
| `SidecarNames.LyricsExactly` | crates/scanner/src/sidecar/locate.rs:149-171 | A track's lyrics file is the `.lrc`, or else the `.txt`, of its stem, by its exact name or else the first that differs only in case, and none if that one is not of 1 byte to 32 MiB |
| `SidecarNames.ListedExactly` | crates/scanner/src/sidecar/locate.rs:157-166 | A name wanted is answered by that file, or else by the first listed that differs from it in case alone |
| `SidecarNames.StemExactly` | crates/scanner/src/sidecar/locate.rs:153-154 | A stem is the name up to its last dot, a dot it begins with aside |
| `SidecarStamps.FeedUnique` | crates/scanner/src/sidecar/locate.rs:39-47 | No two files feed a hash the same bytes, whatever follows them |
| `SidecarStamps.FeedAllUnique` | crates/scanner/src/sidecar/locate.rs:64-78 | No two findings of sidecars feed the same bytes, an absence told from every file |
| `SidecarStamps.StampsEqual` | crates/scanner/src/sidecar.rs:174-200 | Stamps are equal just if the sidecars and the lyrics file are, by path, size and time |
| `SidecarResolvers.FirstSized` | crates/scanner/src/sidecar/locate.rs:113-116 | Of the ranked candidates the first of a sidecar's size is the folder's best |
| `SidecarResolvers.PickAmong` | crates/scanner/src/sidecar/locate.rs:80-122 | The pick is the same whatever order the names come in |
| `SidecarResolvers.LyricsOf` | crates/scanner/src/sidecar/locate.rs:134-146 | The folded names give for each lyrics name the first listed that folds to it |
| `SidecarResolvers.FindLyrics` | crates/scanner/src/sidecar/locate.rs:153-171 | Through them a track's lyrics file is found as without them |
| `SidecarResolvers.SidecarResolver.OfferListing` | crates/scanner/src/sidecar.rs:149-157 | An offer that agrees with the disk, be it the empty one of a folder that is gone, keeps the memo agreeing with it |
| `SidecarResolvers.SidecarResolver.Locate` | crates/scanner/src/sidecar.rs:202-222 | After any calls, locating gives what the uncached definition gives, and lists no folder twice |
| `SidecarResolvers.SidecarResolver.LocateNew` | crates/scanner/src/sidecar.rs:205-220 | So does locating one not located before, by its parent, and the recursion ends |
| `SidecarResolvers.SidecarResolver.LocalFor` | crates/scanner/src/sidecar.rs:224-244 | A folder's own sidecars are the same from an offered listing as from its own |
| `SidecarResolvers.SidecarResolver.Resolve` | crates/scanner/src/sidecar.rs:159-172 | Reads just what applies, opening each file at most once a scan |
| `SidecarResolvers.SidecarResolver.StampTrack` | crates/scanner/src/sidecar.rs:174-200 | The stamp is of what applies and the track's lyrics, and nothing is opened for it |
| `SortRows.PositionsTotal` | crates/core/src/sort.rs:152-164 | The comparator is a total order on positions, for every field and direction |
| `SortRows.OrderByColumns` | crates/core/src/sort.rs:104-145 | Lead and rest are one lexicographic order of columns that end on the ID |
| `SortRows.RowsConsistent` | crates/core/src/sort.rs:104-145 | Rows tie only if they have the same ID |
| `SortRows.SortPositions` | crates/core/src/sort.rs:148-164 | The result holds each position once, strictly in order |
| `SortRows.SortedOnlyWay` | crates/core/src/sort.rs:148-151 | It is the only order of the positions that is sorted |
| `SortRows.UnknownLast` | crates/core/src/sort.rs:148-149 | Rows with no value come last in either direction |
| `SortRows.UnknownIsEmpty` | crates/core/src/sort.rs:113-122 | A row is unknown for a field just if the first column it sorts by is empty, and never for the time added or the duration |
| `SortRows.FirstDifference` | crates/core/src/sort.rs:104-145 | Of two rows that both have a value, or neither, the lesser in the first column they differ in comes first ascending and last descending |
| `SortRows.NumberlessLast` | crates/core/src/sort.rs:104-111 | On a disc a track with no number comes after the numbered ones |
| `SortRows.DisclessOnZero` | crates/core/src/sort.rs:104-111 | A track with no disc is placed just as it would be on disc 0 |
| `SortRows.TiesKeepPlaces` | crates/core/src/sort.rs:148-164 | Rows that tie keep their order, in both directions |
| `SortRows.AnyInputOrder` | crates/core/src/sort.rs:149-151 | With distinct IDs the rows come out in one order, whatever order they came in |
| `SortRows.DescendingBackwards` | crates/core/src/sort.rs:155-162 | With distinct IDs descending order is the rows with a value backwards, and then those with none backwards |
| `Waveform.ShapeWaveform` | crates/core/src/waveform.rs:34-60 | A height for each bin: 0 for silence, 24 to 255 otherwise, and never lower for a louder bin |
| `Waveform.ScaleSpans` | crates/core/src/waveform.rs:42-49 | The scale is none just in silence, and otherwise spans six decibels or from 0, so nothing is divided by zero |
| `Waveform.ScaleExactly` | crates/core/src/waveform.rs:42-49 | The scale's high is the 95th percentile of the bins that sound, and its low the 5th, or six decibels below the high or 0 where the 5th is closer |
| `Waveform.HeightNearest` | crates/core/src/waveform.rs:50-59 | Within the scale a bin draws at the whole number nearest to the line from 24 to 255 |
| `Waveform.FewOutliers` | crates/core/src/waveform.rs:19-22 | Of the bins that sound no more than the percentiles leave over are louder than the scale's high or quieter than its low |
| `Waveform.HeightsFit` | crates/core/src/waveform.rs:50-59 | No height overflows its byte, and the percentiles draw at the floor and at full height |
| `Waveform.PartNearest` | crates/core/src/waveform.rs:56-57 | The division rounds to a nearest whole number |
| `Waveform.LouderNoLower` | crates/core/src/waveform.rs:36-39 | Heights never fall as levels rise |
| `Waveform.ScaleOfAnyOrder` | crates/core/src/waveform.rs:41-48 | The scale depends on the levels alone, not on their order |
| `Decodes.PcmStream.ReadFrames` | crates/ffmpeg/src/decode.rs:59-90 | Whatever the pipe's reads, all that is returned is the stream's first frames, in the end all its whole ones; 1 to the most asked for a call, 0 only at the end of a child that ended well, and an error just if a read or the child failed |
| `Decodes.PcmStream.Fill` | crates/ffmpeg/src/decode.rs:74-82 | The read loop ends with a frame held, at the end of the stream, or at an error, and loses no byte |
| `Decodes.PcmStream.TakeWhole` | crates/ffmpeg/src/decode.rs:83-89 | Takes every whole frame held and leaves less than one |
| `Decodes.PcmStream.Ends` | crates/ffmpeg/src/decode.rs:59-68 | At the end all the whole frames were returned, and at most a partial one is dropped |
| `Decodes.WrittenReturns` | crates/ffmpeg/src/decode.rs:59-90 | Whole frames of samples, written as little-endian bytes and read by a stream to its end, are the samples written |
| `Decodes.SamplesOfBoth` | crates/ffmpeg/src/decode.rs:84-86 | Samples of bytes cut at a whole sample are the samples of the parts |
| `Entries.ReadPage` | crates/plugins/src/files.rs:76-87 | Holding a page and one name at most, the loop keeps just the least names after the one given, whatever order they come in |
| `Entries.PageWithOne` | crates/plugins/src/files.rs:81-86 | Pushing a name and popping the greatest of too many keeps the least with it |
| `Utf8Names.PageHolds` | crates/plugins/src/files.rs:67-87 | A page holds at most 500 names, each the encoding of a text and after the one given by its bytes, and leaves one out only for 500 that come before it |
| `Utf8Names.Utf8Exactly` | crates/plugins/src/files.rs:80 | A name is taken just if it is the UTF-8 encoding of some sequence of characters |
| `Entries.ListEntries` | crates/plugins/src/files.rs:73-109 | Describes just that page, leaving out what is gone, and fails just if a name of it cannot be described |
| `Entries.DescribedNames` | crates/plugins/src/files.rs:88-108 | An answer is of the names of its page that are not gone, so the whole page just if none is, each as it is described |
| `Entries.AnswersArePages` | crates/plugins/src/files.rs:67-109 | With nothing gone, asking by the last name each call answered gives the pages, as described |
| `Entries.AnswersAllOnce` | crates/plugins/src/files.rs:67-109 | So calls from the start to an empty answer give each UTF-8 name of an unchanged folder once, in order, and no other |
| `Entries.PagesInOrder` | crates/plugins/src/files.rs:68-72 | Paging by the last name to an empty page gives all the names after the first one asked for, in order, though each call lists them in another |
| `Entries.PagesAllOnce` | crates/plugins/src/files.rs:68-72 | From the start, each UTF-8 name of an unchanged folder once, and no other |
| `WatchdogSafety.SignalsReachOwn` | crates/ffmpeg/src/pooled.rs:14-18 | In every interleaving each signal, the watchdog's or a drop's, gets to the unreaped child it is for, never to a process with its pid after it |
| `WatchdogSafety.StalledOnlyIfSilent` | crates/ffmpeg/src/registry.rs:77-87 | A child is marked, and says it, just if the watchdog killed it, and it had been silent for longer than the timeout |
| `WatchdogSafety.NotWithinTimeout` | crates/ffmpeg/src/registry.rs:64-87 | The watchdog kills no child within the timeout of its registering or of any progress it made |
| `WatchdogSafety.CheckMarksAll` | crates/ffmpeg/src/registry.rs:77-87 | By its end a check has newly marked just the children registered at its lock that had been silent for longer than two minutes at its waking, and has signalled each |
| `WatchdogSafety.EntryClock` | crates/ffmpeg/src/registry.rs:54-69 | The time the registry has of a child is just that of its registering, or of its last progress since |
| `WatchdogSafety.DropKills` | crates/ffmpeg/src/pooled.rs:106-120 | A child dropped unfinished was sent a kill, and got it |
| `WatchdogSafety.EntriesAreOwn` | crates/ffmpeg/src/registry.rs:54-69 | Registering overwrites no other child's entry, and progress restarts no other child's clock |
| `WatchdogSafety.StepKeeps` | crates/ffmpeg/src/pooled.rs:33-120 | Every step of a child, the watchdog and the system keeps pids and entries to their children |
| `Watchdogs.Registry.Register` | crates/ffmpeg/src/registry.rs:54-62 | Adds an entry under a pid that had none |
| `Watchdogs.Registry.Progress` | crates/ffmpeg/src/registry.rs:64-69 | Restarts the clock of the child's own entry |
| `Watchdogs.Registry.Unregister` | crates/ffmpeg/src/registry.rs:71-75 | Removes just that entry |
| `Watchdogs.Registry.ReapStalled` | crates/ffmpeg/src/registry.rs:77-87 | The loop under the lock, among any steps of others, marks and signals just the children silent longer than the timeout as of the check |
| `Watchdogs.Pooled.Spawn` | crates/ffmpeg/src/pooled.rs:33-58 | A spawned child is registered under its own pid |
| `Watchdogs.Pooled.Finish` | crates/ffmpeg/src/pooled.rs:75-94 | Finishing, unless reaping fails, says that it stalled just if the watchdog killed it, and else whether it ended well |
| `Watchdogs.Pooled.Drop` | crates/ffmpeg/src/pooled.rs:106-120 | A drop of an unfinished child kills, unregisters and reaps it, unless reaping fails, and of a finished one does nothing |

## Left out

- Positions that are not whole numbers, which the device refuses as out of range.
- PlaylistUndo.UndoRestores: an item is compared as a value, so the object identity of an item that JavaScript keeps is not modelled; the identity of the arrays that adds name is.
- TakeoverPlays.PlaysAsNamed: a player begins to play only while a start is due or the device is active, as by the user's hand; a start the server refuses may leave a device playing unnamed, which Takeover.RefusedStaysActive shows.
- Takeover.OnePlays: each device has one page and one connection at a time; reports and states on the way when a connection ends are lost, as are those of a page beside it.
- Scans.Scan.ScanScopes: what is made of each file, which tracks are marked missing and the counts of progress are not modelled, only that each file and each folder's reconcile is done; the save of the row as a run starts and ends is part of its first and last step, and may fail; excludes that do not compile fail as the store does at the start, and so does a panic.
- ScanSafety.EveryFolderProcessed: the folders do not change during a scan.
- ScanSafety.MissedOnlyIfForgotten: the other way round does not hold, as a scope left unanswered may be whole all the same; what holds both ways is ScanResumes.GotThroughAllUnlessResumedPast.
- Walks.Walk.Next: what a listing reads of each entry, the exclude patterns, links and unreadable entries are in what a node lists; an excluded scope is one that lists nothing.
- The queue's requests and its worker thread beside the retry.
- Jobs.Retries.RunPass: what a pass changes of the strikes and of the waits for one file is one step; a panic in a pass is not modelled. The clock is a number, which does not move during one section under a lock.
- Pools.Schedule.RunNext: the thread's loop around it, and a pass that panics, which counts as idle.
- Listens.Submit: the JSON bodies, the service's words for an error and the summary's text. A service that fails after it took a batch is one that failed.
- Listens.Deliver: white space is that of Unicode 15.
- Sidecars.AppliesFromNearest: the exclude patterns are in what a folder lists, the folder of an excluded scope listing nothing, and files do not change during a scan.
- SidecarStamps.StampsEqual: the hash is ideal: SHA-256 and the eight bytes kept of it are taken not to collide.
- SidecarResolvers.SidecarResolver.Resolve: what is made of a file's bytes is a function of its path.
- How sort keys are made from names, and the server's SQL order, which is to match.
- The levels of a waveform, which are made with floating point.
- Decodes.PcmStream.ReadFrames: a sample is the 32 bits of its number; a size that does not fit a `usize`, and endless interruptions of a read, are not modelled.
- Entries.ListEntries: opening the folder, and a folder whose listing fails part way; the heap is its names in order.
- Watchdogs.Registry.ReapStalled: a signal that fails; a child that exits by itself stays unreaped until its owner reaps it, and so is no event. The draining of standard error is not modelled.
- The server's HTTP and storage, the plugin host, tags, images, search, and the web client's pages.
