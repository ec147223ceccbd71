# Verified model of the production platform's client-side protocols

This project models the parts of the platform whose correctness depends on several pieces of code agreeing
with each other, and proves that they do. Some of the promises made in the code's comments turn out to
hold only under a condition. Each of these is listed below with the theorem that states the condition and
the lemma that gives an input or a run on which the promise fails.

- **Drive assets** (`DriveForest`, `DriveRows`, `DriveVisible`, `DriveDelete`, `StableSort`). A flat table
  of rows that name their parents becomes a sorted forest, a list of visible rows, indentation depths and
  file counts, and is pruned by a fixed-point delete. The theorems connect these separately written views.
  Names are compared by an arbitrary total preorder. Drive ids are taken to be unique and non-empty, and
  entity ids unique; parent cycles and missing parents are allowed.
- **Comment completion** (`CommentToggle`). The client masks a lagging server until a read confirms the
  write. Every handler is a step, reads and failures arrive in any order, and the theorems are about all
  runs.
- **Media player** (`PlaybackArbitration`, `SpeedGesture`, `Timecode`). Which of several mounted players
  may play; the press, hold and lock gesture; thumbnail grid, frame snapping and printed timecodes in
  exact reals.
- **Chat stream** (`EventStream`, `StreamReply`, `Grouping`). The chunked reader of server-sent events
  (the `data` field of section 9.2 of the WHATWG HTML Standard) agrees with reading the whole text at
  once, and what a search ends with is told from the payloads alone.
- **Tile board** (`TileBoard`, `TileMoves`, `TileWorkspace`, `TileReach`, `TileStore`, `TileRuns`,
  `TileOvertaking`, `KeyedLists`). What one drop changes and keeps, that every arrangement can be reached,
  that the store's rows follow the screen over any number of drops, and exactly which two drops leave the
  store behind when their requests overtake each other.
- **Backfill** (`Backfill`, `BackfillThreads`, `BackfillFacts`, `BackfillRuns`). Which rows a run adds,
  its totals, running it twice, and its dry run, all for the run over the targets grouped by project.
- **Notifications** (`Notifications`). The bounded list against an unbounded one, and the observers of the
  queues.
- **Push queue** (`PushQueue`, `PushReports`, `Text`). The modal that pauses at a name collision and
  resumes, against every server, and then against the push route itself.
- **Slate** (`SlateNotes`, `SlateTabs`, `SlateReplica`, `SlateCommands`). The service that owns the notes
  and tabs, the browsers that replay its broadcasts by index, the files behind a project, and the bounded
  log.

State that the program updates in place is a class whose methods are verified against a step function on
values; the theorems about whole runs are stated on that function. A handler that is a single step has no
row below: what it does is told, field by field, by a theorem about its step function. Lemmas by induction
call themselves explicitly: automatic induction is switched off throughout.

## What turned out to be conditional

| promise | holds exactly when | fails on |
|---|---|---|
| deleting a folder removes its subtree at any nesting depth | `DriveDelete.DeleteCommutesIff`: no file inside it has child rows | `DriveDelete.FileParentOrphans` |
| the indentation walk ends | `DriveRows.LoopsForeverIff`: it ends within as many steps as there are rows | `DriveRows.ParentCycleLoops` |
| a guarded comment shows its guarded value | `CommentToggle.RunMaskedIff`: no posted comment contradicts a guard | `CommentToggle.LatePostContradicts` |
| a successful toggle does not flicker | `CommentToggle.NoFlickerAfterAnyRun`: no other toggle of that comment is under way | `CommentToggle.OverlapFlickers` |
| a comment toggled in the theater shows the server's value again | `CommentToggle.TheaterToggleYieldsIff`: some read agreed with the toggle; with unchanging data, `TheaterToggleHonestIff`: the server carried it out | `CommentToggle.RefusedTheaterToggleSticks` |
| a short press leaves its click to play and pause | `SpeedGesture.GestureOwedIff`: no hold began since the last click | `SpeedGesture.TapAfterCancelIsSwallowed` |
| a toggle that fails is rolled back | `CommentToggle.RollbackRestoresIff`: the comment showed the opposite mark | `CommentToggle.RollbackInvents` |
| clearing a locked speed lasts | `SpeedGesture.ClearLastsIff`: no interval is running | `SpeedGesture.ClearDuringHold` |
| the store follows the board on screen | always, if drops arrive in order (`TileRuns.RunPersists`); if two drops overtake each other, `TileOvertaking.OvertakenIff`: they have no category in common, or the second moved nothing, or it put a tile from an untouched category last | `TileOvertaking.OvertakenExample` |
| a dry run reports the insertions of the real run | `BackfillRuns.BackfillDryRunIff`: every missing id once, no insert throws | `BackfillFacts.DryRunOvercounts` |
| completion means one acceptance each | `PushQueue.ExactlyOnceIff`: no refusal after an acceptance | `PushQueue.AcceptedTwice` |
| "rename" saves the colliding file | `PushQueue.RenameKeepsFileIff`: nothing is queued behind it | `PushQueue.RenameLosesFile` |
| a push goes to the folder that was open at the push | `PushQueue.FolderIff`: it is also open at each resolution | `PushQueue.RenameLosesFile` |
| reordered tabs carry their indices as positions | `SlateTabs.PositionsIff`: no unknown or repeated id before the first mention of a tab | `SlateTabs.UnknownIdRepeatsPosition` |
| tabs and reassigned notes show in one frame | `SlateReplica.OneFrameIff`: the command does not delete a tab with notes in it | `SlateReplica.HalfWayDangles` |

## Model

| member | source | states |
|---|---|---|
| `StableSort.SortStable` | components/projects/AssetsTab.tsx:101-104 | the sort leaves rows that compare equal in the order in which they stood, for any total preorder |
| `StableSort.AnyStableSort` | components/projects/AssetsTab.tsx:101-104 | every stable sorting of the same rows gives the same list, so nothing below depends on how the sort is computed |
| `StableSort.SortFilter` | components/projects/AssetsTab.tsx:100-104 | sorting commutes with dropping rows |
| `DriveForest.TrailExtends` | components/projects/AssetsTab.tsx:98-106 | no path from a root repeats an id, even in a table with parent cycles; this is why building the tree terminates |
| `DriveForest.ForestInDisplayOrder` | components/projects/AssetsTab.tsx:98-114 | in the forest of any table, at the root and under every folder, no file stands before a folder, rows of one kind stand in the order of their names, and ties keep the order of the table |
| `DriveRows.PlacedExactlyOnce` | components/projects/AssetsTab.tsx:95-115 | a row is placed exactly once if its parent chain passes only through folders and ends outside the table, and never otherwise |
| `DriveRows.VisibleExactlyWhenOpen` | components/projects/AssetsTab.tsx:117-126 | a placed row is on screen, once, exactly when each of its ancestors is expanded |
| `DriveRows.ListingsAgree` | components/projects/AssetsTab.tsx:117-126 | the visible nodes, their table rows and the rows with their levels are one listing in the same order |
| `DriveRows.IndexByFileId` | components/projects/AssetsTab.tsx:96 | the id index holds exactly the ids of the table and finds the one row of each |
| `DriveRows.GetDepth` | components/projects/AssetsTab.tsx:831-841 | the upward walk counts the ancestors found in the table, or is still running when the given number of steps is used up; 0 while filtering |
| `DriveRows.WalkBound` | components/projects/AssetsTab.tsx:836-839 | a walk that ends at all takes fewer steps than the table has rows |
| `DriveRows.LoopsForeverIff` | components/projects/AssetsTab.tsx:836-839 | the walk never ends exactly when it has not ended after as many steps as the table has rows |
| `DriveRows.ParentCycleLoops` | components/projects/AssetsTab.tsx:1316 | two folders naming each other as parents, on which the walk of the move dialog never ends |
| `DriveRows.DepthIsLevel` | components/projects/AssetsTab.tsx:831-841 | for a row of the built forest the walk ends after exactly as many steps as the level at which the forest holds it |
| `DriveVisible.VisibleIsOpenPreorder` | components/projects/AssetsTab.tsx:117-126 | the flattened list is the preorder of all nodes restricted to those whose ancestors are all expanded |
| `DriveVisible.FlattenVisible` | components/projects/AssetsTab.tsx:117-126 | the accumulating loop computes that list |
| `DriveVisible.CountFiles` | components/projects/AssetsTab.tsx:135-142 | a count is the number of file rows in the fully expanded forest |
| `DriveVisible.HiddenToggle` | components/projects/AssetsTab.tsx:485-492 | toggling an id that no row on screen carries changes nothing on screen, in either direction |
| `DriveVisible.ToggleInsertsBlock` | components/projects/AssetsTab.tsx:485-492 | expanding the folder in visible row i inserts its visible subtree as one block right after it; toggling it again restores the list |
| `DriveVisible.CollapseRemovesBlock` | components/projects/AssetsTab.tsx:485-492 | collapsing the open folder in visible row i, whatever else is expanded, keeps that row in place and removes exactly one block, its visible subtree, right after it |
| `DriveDelete.ClosureLeast` | components/projects/AssetsTab.tsx:526-537 | the doomed ids form the least set that holds the target and is closed under folder children |
| `DriveDelete.ClosureIgnoresOrder` | components/projects/AssetsTab.tsx:526-537 | that set does not depend on the order of the table |
| `DriveDelete.RemovalIds` | components/projects/AssetsTab.tsx:527-537 | the `grew` loop computes exactly that set, in at most one pass per folder plus one |
| `DriveDelete.AssetsState.HandleDelete` | components/projects/AssetsTab.tsx:513-545 | a refused delete changes nothing but the error; an accepted one keeps exactly the surviving rows, drops the id from the selection and closes the modal |
| `DriveDelete.DeleteCommutesIff` | components/projects/AssetsTab.tsx:526-542 | the forest of the remaining table is the old forest with the target's subtree pruned, if and only if no file inside a doomed folder has child rows |
| `DriveDelete.DeleteCommutes` | components/projects/AssetsTab.tsx:524-542 | it always is when every parent found in the table is a folder |
| `DriveDelete.OrphanResurfaces` | components/projects/AssetsTab.tsx:108-109 | a survivor whose parent row goes becomes a root although the old forest never showed it |
| `DriveDelete.FileParentOrphans` | components/projects/AssetsTab.tsx:538-541 | a table and a target for which the forest after the delete is not the pruned one |
| `CommentToggle.CommentThread.ApplyFetch` | components/media/AssetComments.tsx:88-99 | one read handled comment by comment: a guarded comment that agrees drops its guard, any other guarded one is masked |
| `CommentToggle.MaskAllSpec` | components/media/AssetComments.tsx:88-99 | a read shows one row per fetched comment; guards left are exactly those the read did not confirm, and every comment still guarded shows its guarded value |
| `CommentToggle.GuardDroppedIff` | components/media/AssetComments.tsx:93-95 | an event drops a guard exactly when it is the failure of a toggle of that comment or a read that agrees with the guard; only another toggle changes the guarded value |
| `CommentToggle.StepMasksIff` | components/media/AssetComments.tsx:195 | every event keeps the mask; a posted comment does exactly when it agrees with a guard its id may already have |
| `CommentToggle.RunMaskedIff` | components/media/AssetComments.tsx:68-74 | over every interleaving, every guarded comment shows its guarded value at every point if and only if no posted comment contradicted a guard when it was appended |
| `CommentToggle.LatePostContradicts` | components/media/AssetComments.tsx:186-200 | a refresh delivers the new comment, the user completes it, then the POST answers: the guard is contradicted |
| `CommentToggle.HoldsThroughoutIff` | components/media/AssetComments.tsx:88-99 | a toggle stays guarded and on screen at every point of a run exactly until the opposite toggle, a late failure, a confirming read or a contradicting post |
| `CommentToggle.NoFlickerIff` | components/media/AssetComments.tsx:202-218 | a toggle that does not fail stays on screen over every continuation without another toggle of that comment, a confirming read or a contradicting post, if and only if no other toggle of it was under way when it was made |
| `CommentToggle.NoFlickerAfterAnyRun` | components/media/AssetComments.tsx:202-218 | the same for a toggle made after any history of an initially empty thread, with no assumption on the state |
| `CommentToggle.OlderFailureFlickers` | components/media/AssetComments.tsx:214-217 | the late failure of an older toggle drops the guard, and the next stale read shows |
| `CommentToggle.OverlapFlickers` | components/media/AssetComments.tsx:214-217 | three toggles of one comment, the last of which succeeds and the first fails late: the replaced value shows without any read |
| `CommentToggle.RefusedTheaterToggleSticks` | components/media/MediaPlayer.tsx:529-538 | the theater reports a toggle even if the server refused it; as long as no read agrees with it, it stays guarded and on screen |
| `CommentToggle.TheaterToggleYieldsIff` | components/media/MediaPlayer.tsx:529-538 | after a theater toggle and any reads the comment shows what the last read brought if and only if some read so far agreed with the toggle |
| `CommentToggle.TheaterToggleHonestIff` | components/media/MediaPlayer.tsx:529-538 | while the server's data do not change, any number of reads shows the server's value if and only if the server carried the toggle out |
| `CommentToggle.ToggleShows` | components/media/AssetComments.tsx:202-205 | a toggle sets the mark of one comment and its guard; every other comment keeps its place and its fields, every other guard its value |
| `CommentToggle.SettlingShows` | components/media/AssetComments.tsx:207-217 | a failure still awaited puts the opposite mark back and drops that guard, all else stays; a success changes nothing on screen |
| `CommentToggle.RollbackRestoresIff` | components/media/AssetComments.tsx:214-217 | a toggle that fails leaves the screen as it was if and only if the comment showed the opposite mark |
| `CommentToggle.RollbackInvents` | components/media/AssetComments.tsx:214-217 | a comment toggled to the mark it has, which fails, ends up with the other mark |
| `CommentToggle.ContentShows` | components/media/AssetComments.tsx:146-200 | an edit changes one text, a reply comes last among the replies of one comment, a posted comment comes last, another asset clears the screen; guards stay |
| `CommentToggle.DeletionLeaves` | components/media/AssetComments.tsx:158-163 | a deletion leaves exactly the comments with other ids, in their order |
| `CommentToggle.RunLeavesOthers` | components/media/AssetComments.tsx:202-217 | over every run between two reads, events about some comments leave all other comments on screen, as they are and in their order, and their guards |
| `CommentToggle.FetchDiffersWhereGuarded` | components/media/AssetComments.tsx:88-99 | after a read the display differs from the fetched data exactly at the ids still guarded, and only in `completed` |
| `CommentToggle.FetchConvergesIff` | components/media/AssetComments.tsx:88-99 | a read leaves the server's values on screen and its comments unguarded exactly when no guard contradicts it |
| `PlaybackArbitration.Registry.PauseCompacts` | components/media/MediaPlayer.tsx:146 | the loop pauses every registered element and no other |
| `PlaybackArbitration.RunArbitrated` | components/media/MediaPlayer.tsx:57-59 | over every run of any number of players the counter is the number of live theater players, the registry is the set of live compact videos, and while the counter is positive every playing compact has a play event on its way |
| `PlaybackArbitration.DrainedCompactIsSilent` | components/media/MediaPlayer.tsx:623-627 | once its queued play events are delivered no compact plays while a theater player is mounted |
| `PlaybackArbitration.StopsIff` | components/media/MediaPlayer.tsx:140-153 | what stops a playing video, exactly; arbitration never stops a theater player |
| `PlaybackArbitration.StartsIff` | components/media/MediaPlayer.tsx:637 | what starts a video that does not play, exactly: a call of `play()`, or its metadata while no theater player holds it back |
| `PlaybackArbitration.DueIs` | components/media/MediaPlayer.tsx:623-627 | the play events on their way are the starts less the deliveries since the element was made or reloaded |
| `SpeedGesture.RunInv` | components/media/MediaPlayer.tsx:40-41 | over every event sequence the playback rate equals the shown speed and is one of the four levels, a running interval excludes a lock, and without interval and lock the speed is 1 |
| `SpeedGesture.HoldEscalates` | components/media/MediaPlayer.tsx:419-424 | after k ticks of a hold the speed is level min(1 + k, 3) |
| `SpeedGesture.LockFreezes` | components/media/MediaPlayer.tsx:447-452 | a lock freezes the speed until it is cleared or the next hold begins |
| `SpeedGesture.ClearLastsIff` | components/media/MediaPlayer.tsx:474-480 | after clearing a lock the speed stays 1 over every event sequence up to the next hold exactly when no interval is running |
| `SpeedGesture.ClearDuringHold` | components/media/MediaPlayer.tsx:660-665 | a lock, a release and a new hold leave the badge on screen with an interval running; clearing it there, from the keyboard, is undone by the next tick |
| `SpeedGesture.LockedAtNormalSpeed` | components/media/MediaPlayer.tsx:661-661 | dragging after that locks the speed at 1 with the badge hidden, so that nothing clears it |
| `SpeedGesture.NoPressNoGesture` | components/media/MediaPlayer.tsx:435-437 | over every run without a press on the right half of the video, the speed stays 1, nothing is armed or locked, and every click plays or pauses |
| `SpeedGesture.PressArmsIff` | components/media/MediaPlayer.tsx:435-442 | a press arms the hold and notes its height exactly on the right half of the video; any other press changes nothing |
| `SpeedGesture.HoldLocksIff` | components/media/MediaPlayer.tsx:445-452 | a hold is locked exactly when the pointer was dragged more than 25 pixels below the press; that stops the interval and shows the badge |
| `SpeedGesture.ReleaseEndsHold` | components/media/MediaPlayer.tsx:455-471 | letting go of an unlocked hold brings the speed back to 1 and hides the badge |
| `SpeedGesture.TapTogglesIff` | components/media/MediaPlayer.tsx:455-462 | a press released before the threshold changes no speed; its click toggles playback exactly when no earlier hold still has a click to swallow |
| `SpeedGesture.GestureOwedIff` | components/media/MediaPlayer.tsx:410 | a click is still owed to a hold exactly when some hold began after the last click on the video |
| `SpeedGesture.TapAfterCancelIsSwallowed` | components/media/MediaPlayer.tsx:612-613 | a hold that ends without a click makes the next tap do nothing |
| `Timecode.GridShape` | components/media/MediaPlayer.tsx:179-180 | for every duration the grid has 8 to 60 points in nondecreasing order |
| `Timecode.GridSizeIs` | components/media/MediaPlayer.tsx:175-180 | the grid has the least number of points that puts them 2.5 s apart or closer, kept between 8 and 60 |
| `Timecode.NearestGridTime` | components/media/MediaPlayer.tsx:315-324 | the scan returns the first grid point of least distance, or the time itself without a grid |
| `Timecode.NearestIsClose` | components/media/MediaPlayer.tsx:179-180 | a nearest grid point is within D/(2n) + 1/2 s of any time in the video, within 1.75 s up to D = 150 |
| `Timecode.SnapNearest` | components/media/AssetComments.tsx:564 | the snapped frame is a nearest one, within 1001/48000 s, and a frame start snaps to its own frame |
| `Timecode.SnapMonotone` | components/media/MediaPlayer.tsx:983 | snapping is monotone |
| `Timecode.FieldRanges` | components/media/MediaPlayer.tsx:64-66 | the three fields satisfy 1440 MM + 24 SS + FF = floor(24 s), SS < 60, FF < 24 |
| `Timecode.FmtTcInverts` | components/media/MediaPlayer.tsx:62-68 | reading the printed digits back gives floor(24 s) |
| `Timecode.FmtTcShape` | components/media/MediaPlayer.tsx:62-68 | minutes of two digits or more and two fields of two digits, with colons between; a time that is negative or not finite prints as 00:00:00 |
| `Timecode.FmtTcSameIff` | components/media/MediaPlayer.tsx:62-68 | two times print alike exactly when they lie in the same 24 fps frame |
| `Timecode.AlignedTimecode` | components/media/MediaPlayer.tsx:62-68 | the timecode of a frame-aligned time reads back as that frame |
| `Timecode.SnappedLabel` | lib/utils/time.ts:11-19 | the SMPTE label of a snapped comment time names exactly the snapped frame, past the one-hour offset |
| `Timecode.LabelShape` | lib/utils/time.ts:11-19 | hours of two digits or more and three fields of two digits, with colons between |
| `EventStream.SplitJoin` | components/media/TranscriptViewerPanel.tsx:386 | splitting loses nothing and leaves no newline in a part |
| `EventStream.SplitAppend` | components/media/TranscriptViewerPanel.tsx:385-387 | appending text completes the residue and may add lines: the buffered loop's step |
| `EventStream.ReadBatch` | components/media/TranscriptViewerPanel.tsx:389-406 | the loop over one chunk's lines, up to the first throw |
| `EventStream.ReadStream` | components/media/TranscriptViewerPanel.tsx:377-409 | for every cut of the text into chunks the reply, sources, summary, status texts and first error are those of the whole text's terminated lines |
| `EventStream.ServerStreamReadsBack` | app/api/projects/[projectId]/cami/chat/route.ts:29-39 | the reader recovers exactly the events the route wrote, in order, and no residue |
| `StreamReply.StreamTells` | components/media/TranscriptViewerPanel.tsx:388-409 | told from the parsed payloads alone, however they are chunked: the texts shown are the non-empty status texts before the first payload that throws; that payload gives the error; without one the reply has the fields of the last `done` payload, absent ones empty, or there is a complaint if it has no answer |
| `StreamReply.ServerTells` | components/media/TranscriptViewerPanel.tsx:388-409 | the same for a stream as the server writes it, where the payloads are the written events |
| `Text.TrimIs` | components/media/TranscriptViewerPanel.tsx:391-391 | trimming takes white space off both ends and leaves a text with none at either |
| `EventStream.GroupSourcesByAsset` | components/media/TranscriptViewerPanel.tsx:56-86 | one group per job id in order of first occurrence, holding all its excerpts in order, named after the first, quoted if any is |
| `Grouping.KeysSpec` | components/media/TranscriptViewerPanel.tsx:62-83 | the keys of a grouping are exactly those that occur, each once |
| `Grouping.KeysInOrder` | scripts/backfill-media-comments.ts:227-233 | of two keys the one that occurs first comes first |
| `Grouping.GroupingConserves` | scripts/backfill-media-comments.ts:227-233 | grouping neither loses nor duplicates a member |
| `TileBoard.SplicesAreDrop` | app/platform/PassWorkspace.tsx:204-207 | index splices on the list equal removing the tile by id and inserting it before the named one |
| `TileWorkspace.Workspace.DropTile` | app/platform/PassWorkspace.tsx:196-212 | the splices on the copied board move the tile by id, the requests carry exactly the new local lists, and the board stays well-formed; a drop that finds no tile or category only ends the drag |
| `TileWorkspace.Workspace.DropCat` | app/platform/PassWorkspace.tsx:213-226 | the same for categories: taken out by position and inserted before the named one, or last |
| `TileWorkspace.DropCatLands` | app/platform/PassWorkspace.tsx:219-225 | the dropped category, unchanged, stands exactly at the place of the named one among the others, or last when there is none; the others keep their order |
| `TileWorkspace.DropCatConserves` | app/platform/PassWorkspace.tsx:213-226 | the board holds the same categories with all their tiles |
| `TileWorkspace.DropCatKeepsBoard` | app/platform/PassWorkspace.tsx:213-226 | ids stay distinct and every tile still names its container |
| `KeyedLists.OthersKeepOrder` | app/platform/PassWorkspace.tsx:204-207 | all other elements keep their relative order |
| `KeyedLists.LandsBefore` | app/platform/PassWorkspace.tsx:205-207 | the moved element stands immediately before the named one, or last when the name is null, absent or its own |
| `TileMoves.DropKeepsBoard` | app/platform/PassWorkspace.tsx:196-212 | ids stay distinct over the board and every tile names its container |
| `TileMoves.DropConserves` | app/platform/PassWorkspace.tsx:196-212 | the board holds the same tiles, the moved one naming its new category |
| `TileMoves.DropKeepsOrder` | app/platform/PassWorkspace.tsx:196-212 | every category keeps its other tiles in order; categories other than the two are untouched |
| `TileMoves.DropLands` | app/platform/PassWorkspace.tsx:205-207 | the moved tile's position in its new category, and that it is the only one with its id |
| `TileReach.AllArrangementsReachable` | app/platform/PassWorkspace.tsx:196-212 | any board over the same tiles and categories is reached from any other by drops, each tile dropped at most once |
| `TileStore.ReorderedAt` | lib/store/platform-pass-store.ts:616-618 | listed rows that exist take the category and their index in the list; no other row changes |
| `TileStore.ReorderedCommute` | lib/store/platform-pass-store.ts:616-618 | requests over disjoint lists commute |
| `TileStore.DestinationSuffices` | app/platform/PassWorkspace.tsx:210 | the destination's request alone makes the store load the board on screen |
| `TileStore.OwnListHarmless` | app/platform/PassWorkspace.tsx:211 | sending a category its own list changes nothing that is loaded |
| `TileStore.PermutedSuffices` | lib/store/platform-pass-store.ts:616-618 | sending one category's tiles in a new order makes the store load that order and nothing else differently |
| `TileStore.DropPersists` | lib/store/platform-pass-store.ts:440-450 | after a drop between categories the store loads exactly the board on screen, in whichever order its two requests arrive |
| `TileRuns.RequestsAre` | app/platform/PassWorkspace.tsx:210-211 | one drop sends the list of its destination and, if the tile came from another category, the list of that one |
| `TileRuns.RunPersists` | app/platform/PassWorkspace.tsx:210-211 | after any number of drops whose requests arrive drop by drop, the two of each drop in either order, the store loads exactly the board on screen |
| `TileOvertaking.OvertakenIff` | app/platform/PassWorkspace.tsx:182-184 | if the requests of any two drops overtake each other, the store loads the board on screen if and only if: the second moved nothing, when it took its tile from a category the first touched; its tile stands last, when only its new category was touched; always, when they share no category |
| `TileOvertaking.PulledBack` | app/platform/PassWorkspace.tsx:182-184 | a tile moved on from a category that the overtaken drop touched: the store never agrees with the screen |
| `TileOvertaking.OvertakenExample` | app/platform/PassWorkspace.tsx:182-184 | two tiles dropped at the end in turn, whose requests overtake each other, leave the store with the older order |
| `Backfill.FlattenThread` | scripts/backfill-media-comments.ts:136-156 | each comment is followed by its replies, as comment-shaped entries naming their parent |
| `BackfillThreads.FlattenAt` | scripts/backfill-media-comments.ts:136-156 | comment i stands behind all comments and replies before it and is followed by its replies, each with its text, author, avatar and time, without a timestamp, naming its comment; there are as many entries as comments and replies |
| `BackfillThreads.EntryOf` | scripts/backfill-media-comments.ts:136-156 | every entry is a fetched comment or a reply to one |
| `BackfillThreads.FlattenIds` | scripts/backfill-media-comments.ts:136-156 | the ids brought in are those of the comments and of their replies |
| `Backfill.BackfillOneAsset` | scripts/backfill-media-comments.ts:112-214 | one asset version: a failed fetch is one error, otherwise every entry is handled in order |
| `Backfill.BackfillProject` | scripts/backfill-media-comments.ts:241-261 | the versions of one project under its author list, added to the totals so far |
| `Backfill.GroupTargets` | scripts/backfill-media-comments.ts:227-233 | targets grouped by project in order of first occurrence |
| `Backfill.RunBackfill` | scripts/backfill-media-comments.ts:227-262 | the whole run equals the plain run over the regrouped targets and processes each target once |
| `BackfillRuns.BackfillRows` | scripts/backfill-media-comments.ts:158-211 | after the run over the regrouped targets existing rows are unchanged, and the ids that have a row are exactly the old ones and those of a comment or reply fetched for some target whose insert did not throw |
| `BackfillRuns.BackfillRecords` | scripts/backfill-media-comments.ts:182-204 | each row the run adds records the first entry handled with its id; a reply points at the local id its parent has at the end of the run, which no other row has, and is in its thread and share |
| `BackfillRuns.BackfillSources` | scripts/backfill-media-comments.ts:158-204 | every row the run adds is the row of a comment, or of a reply, fetched for one of the targets, told column by column: the author known to its project or else the name given, and for a reply its comment as parent |
| `BackfillFacts.AllWorkParentsFirst` | scripts/backfill-media-comments.ts:178-181 | over all targets every parent entry comes before its replies |
| `BackfillRuns.RunTotals` | scripts/backfill-media-comments.ts:235-253 | over the targets, in whatever order: fetched counts the comments, errors the failed fetches and the inserts that threw, inserted the rows added, and all three counts together the comments and replies plus the failed fetches |
| `BackfillFacts.InsertedIsGrowth` | scripts/backfill-media-comments.ts:205 | the reported insertions are the number of rows by which the table grew |
| `BackfillFacts.SecondRun` | scripts/backfill-media-comments.ts:158-165 | a second run over the same targets inserts exactly the missing ids whose insert threw before and does not now; it writes nothing if and only if there is none |
| `BackfillRuns.BackfillDryRunIff` | scripts/backfill-media-comments.ts:167-170 | a dry run over the regrouped targets writes nothing and reports at least the insertions of the real run, exactly as many if and only if every missing id occurs once and no insert throws |
| `BackfillFacts.DryRunOvercounts` | scripts/backfill-media-comments.ts:167-170 | a comment fetched twice, or whose insert throws, is counted once too often |
| `Notifications.BoundedIsPrefix` | contexts/ToastContext.tsx:194-234 | after any run the list is a prefix of the unbounded move-to-front list, has distinct ids and at most 50 entries, and is the whole of it while that never exceeded 50 |
| `Notifications.PushesKeepTheLatest` | contexts/ToastContext.tsx:225-226 | with pushes alone it is exactly the first 50 of the unbounded list |
| `Notifications.IdealLists` | contexts/ToastContext.tsx:225-232 | the unbounded list holds, latest first, exactly the notes pushed and neither pushed again nor dismissed since |
| `Notifications.QueueObserver.Observe` | contexts/ToastContext.tsx:73-110 | the first snapshot is the baseline; a later one announces, in order, exactly the jobs known with another status that are now done or failed |
| `Notifications.WatchAnnouncesTurns` | contexts/ToastContext.tsx:73-110 | over a run of snapshots a job's outcome is announced exactly as often as the job turned to it from another known status between consecutive snapshots |
| `Notifications.OnlyOutcomes` | contexts/ToastContext.tsx:81-107 | nothing is announced but that a job of some snapshot is done or failed |
| `PushQueue.PushModal.PushAssets` | components/media/SardiusPushModal.tsx:147-183 | the loop sends the queue in order and stops at the first collision or failure |
| `PushQueue.RunConsistent` | components/media/SardiusPushModal.tsx:166-182 | over every run and every server: the assets accepted in the current attempt are a prefix of the pushable ones, an open conflict accounts for all the others (done + queued = total), and completion is reported once, after all were accepted |
| `PushQueue.ExactlyOnceIff` | components/media/SardiusPushModal.tsx:173-182 | on completion each pushable asset was accepted exactly once over the whole run if and only if the server never refused a request after accepting one |
| `PushQueue.AcceptedTwice` | components/media/SardiusPushModal.tsx:173-193 | the first asset accepted, the second refused, pushed again: completion with the first accepted twice |
| `PushReports.PushableAre` | components/media/SardiusPushModal.tsx:191-191 | the assets to push are exactly those with a local file, in their order |
| `PushReports.StepSends` | components/media/SardiusPushModal.tsx:147-206 | a push sends pushable assets in order from the first, with no decision; a resolution sends the colliding asset and those behind it, all with that decision; a click that is not possible sends nothing |
| `PushReports.RunReports` | components/media/SardiusPushModal.tsx:166-180 | over every run an error is shown exactly after a refusal, and a conflict exactly after a collision, with that asset and the suggested name |
| `PushReports.RunProgress` | components/media/SardiusPushModal.tsx:174-175 | over every run the bar shows the share of the pushable assets accepted in the current attempt |
| `PushReports.PercentRounds` | components/media/SardiusPushModal.tsx:175-175 | the share is rounded to the nearest percent, half up, and is 100 when all is done |
| `PushQueue.FolderIff` | components/media/SardiusPushModal.tsx:160-206 | over any stretch of a run all requests go to one folder if and only if that folder was open at each click that sends something; resolutions send to the folder open then |
| `PushQueue.RootIsAccepted` | components/media/SardiusPushModal.tsx:195-206 | the push button is disabled at the root but a resolution is not: the route accepts its requests there, as in any folder, unless it refuses them for another reason |
| `PushReports.CollidesIff` | app/api/projects/[projectId]/media/[assetId]/sardius/route.ts:45-66 | a request collides exactly when it carries no decision, its folder holds a file with the asset's own name, and nothing else is wrong |
| `PushReports.SuggestedNameIs` | app/api/projects/[projectId]/media/[assetId]/sardius/route.ts:7-10 | the suggested name puts "(1)" before the part from the last dot on, if there is one |
| `PushReports.FilesGrow` | app/api/projects/[projectId]/media/[assetId]/sardius/route.ts:68-75 | an accepted request puts its file into its folder, under the new name if it brings one and else under its own; no other request changes a file |
| `PushQueue.ResumedQueueCompletesIff` | app/api/projects/[projectId]/media/[assetId]/sardius/route.ts:57-66 | the route checks collisions only for requests without a decision, so a resumed queue never stops at one again; it completes if and only if none of its requests is refused |
| `PushQueue.RenamedQueueFile` | app/api/projects/[projectId]/media/[assetId]/sardius/route.ts:68-68 | requests to one folder under one new name all land in one file, the last one sent |
| `PushReports.OverwriteKeepsNames` | components/media/SardiusPushModal.tsx:202-206 | when a push completes after "overwrite", the colliding asset and those behind it are found in the folder, each under its own filename (the last of those that share one), and no other file has changed |
| `PushQueue.RenameKeepsFileIff` | components/media/SardiusPushModal.tsx:202-205 | when a push completes after "rename", the colliding asset's own file is on the remote side exactly when nothing was queued behind it |
| `PushQueue.RenameLosesFile` | components/media/SardiusPushModal.tsx:202-205 | two assets, the first of which collides: after "rename" its file is nowhere, and everything went to the folder open at the resolution |
| `SlateNotes.SlateService.OnDeleteNotes` | lib/services/slate-service.ts:366-375 | for any list of positions, repeated or out of range, filtering, deduplicating, sorting and splicing leaves exactly the notes at the other positions |
| `SlateNotes.SlateService.OnCreateTab` | lib/services/slate-service.ts:388-426 | the new tab comes last and is broadcast; the first tab of a project with notes also creates a tab that takes all unassigned notes, which are rebroadcast |
| `SlateNotes.SlateService.OnDeleteTab` | lib/services/slate-service.ts:466-485 | the remaining tabs are renumbered and broadcast; the notes of the deleted tab are released and rebroadcast |
| `SlateTabs.ReorderTabs` | lib/services/slate-service.ts:451-464 | the loops over the map of tabs compute the reordered list |
| `SlateTabs.ReorderOrder` | lib/services/slate-service.ts:453-460 | whatever ids are sent, the known ones come first, in the requested order and each once, and all other tabs follow in their old order, names unchanged |
| `SlateTabs.PositionsIff` | lib/services/slate-service.ts:455-460 | every tab of the new list carries its index as its position if and only if no unknown or repeated id precedes the first mention of a tab |
| `SlateTabs.UnknownIdRepeatsPosition` | lib/services/slate-service.ts:455-460 | an unknown id before the first of two tabs gives both position 1 |
| `SlateTabs.ReorderConserves` | lib/services/slate-service.ts:459-460 | no tab is dropped or duplicated |
| `SlateCommands.NoteCommandsShow` | lib/services/slate-service.ts:341-386 | a new note comes last with its code, text, time and a tab that exists or none; an edit changes the code and the text of one note, an assignment its tab; out of range nothing happens |
| `SlateCommands.DeletionsKeep` | lib/services/slate-service.ts:359-375 | a deletion leaves exactly the notes at the positions not named, in their order |
| `SlateCommands.TabCommandsShow` | lib/services/slate-service.ts:388-449 | a new tab comes last with its name, position and time, behind "Tab 1", which takes the unassigned notes, if it is the first of a project with notes; a renaming changes one name |
| `SlateTabs.ByIdIds` | lib/services/slate-service.ts:453-453 | the map of tabs keeps one of each id, at the place of the first |
| `SlateTabs.ByIdLast` | lib/services/slate-service.ts:453-453 | and it keeps the last of each id |
| `SlateNotes.DoomedSpec` | lib/services/slate-service.ts:368-369 | the positions to delete are the valid ones requested, each once, from the highest down |
| `SlateNotes.SpliceAllIsDropAll` | lib/services/slate-service.ts:370-370 | splicing from the highest position down removes exactly those positions |
| `SlateNotes.BatchIsDescendingDeletes` | hooks/useSlate.ts:493-496 | `notesDeleted` with any index list equals `noteDeleted` for its distinct indices from the highest down |
| `SlateNotes.LogPane.PushLog` | hooks/useSlate.ts:290-292 | the pane holds the last 200 lines of everything logged |
| `SlateNotes.LogHoldsLastLines` | hooks/useSlate.ts:290-292 | folding the reducer over any history gives exactly its last 200 lines |
| `SlateReplica.HandleBroadcasts` | lib/services/slate-service.ts:341-494 | receiving what a command broadcasts takes an up-to-date client to the new state, with edits in range; only tab commands send two messages, the new tabs and then the new notes |
| `SlateReplica.ReplicaInSync` | hooks/useSlate.ts:440-496 | over every interleaving of commands, deliveries, connections and disconnections the client shows notes and tabs the service once had for that project, every delivered edit is in range, and a drained link means the current state |
| `SlateReplica.OneFrameIff` | lib/services/slate-service.ts:388-485 | at every moment of following one command, a browser shows every note without a tab or in a listed one, if and only if the command does not delete a tab with notes in it |
| `SlateReplica.HalfWayDangles` | lib/services/slate-service.ts:483-484 | between the two messages of a tab deletion a client shows notes in a tab that is no longer listed |
| `SlateReplica.ComingBackRestores` | lib/services/slate-service.ts:809-812 | leaving a project, doing anything elsewhere and coming back restores its notes and tabs |
| `SlateReplica.RunNoDangling` | lib/services/slate-service.ts:466-485 | no run of commands leaves a note, in memory or on disk, pointing at a missing tab |
| `SlateReplica.TabsKeepNotes` | lib/services/slate-service.ts:388-485 | no command on tabs destroys, changes or reorders notes; a deletion releases exactly the notes of that tab |

## Left out

- DriveRows.GetDepth: takes a number of steps after which it stops with the walk still running, because the source's loop has no bound and runs forever on a parent cycle; `LoopsForeverIff` says exactly when.
- DriveDelete.AssetsState.HandleDelete: the server's own purge is its answer only; what it removes from the index is not part of this model.
- Timecode.SnappedLabel: covers non-negative times; a negative remainder of the label arithmetic is not modelled, and floating-point rounding is replaced by exact reals.
- EventStream.ReadStream: JSON parsing is an arbitrary partial function and chunks are already decoded text; the byte decoder is not modelled.
- PlaybackArbitration.Registry.Mount: mounting and its effect are one step; the moments between a commit and its passive effects are not modelled.
- CommentToggle.CommentThread.ApplyFetch: reads under way, version and audience selection are not modelled; a read is any list of comments at any time.
- SpeedGesture.GesturePlayer.BeginSpeedHold: timers are events that fire only while armed; several pointers at once, a changed source video and the wall clock are not modelled.
- Backfill.MediaCommentStore.InsertMediaComment: rows without a Frame.io id and the completion and deletion times of a row are not modelled, and random ids are a running number.
- TileStore.DropPersists: rows with equal positions, which the store orders by creation time, and the stored positions of categories are not modelled.
- TileOvertaking.OvertakenIff: a drop's requests overtake those of the drop before it as a whole; interleavings of the single requests of several drops are not characterised, and a category with equal positions counts as not loaded, whatever its creation times.
- PushQueue.RenamedQueueFile: an accepted upload is taken to reach the remote side in the order of acceptance; the upload queue and concurrent uploads are not modelled.
- PushQueue.ResumedQueueCompletesIff: which requests meet a missing asset, a missing configuration or an upload still running is an arbitrary function.
- SlateNotes.SlateService.OnCreateTab: names arrive trimmed, and new ids and the clock are parameters.
- SlateNotes.Receive: an edit outside the list changes nothing in the model, where JavaScript would leave a gap; `ReplicaInSync` shows that none is delivered.
- The acknowledgement that activates a newly created tab, and the activity record of a note.
- The filtered listing of the assets tab, moving rows, the upload and selection handling, drag indicators.
- The read marker and unread count of the notification list; titles and links of its entries.
- Sockets, HTTP, file and database access: each is a step, a parameter or a map.
- Rendering, styling, clipboard, label and status tables, date and byte formatting, sign-in and middleware.
