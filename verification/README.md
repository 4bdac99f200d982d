# Verified model of the remote-desktop cores and the shared core logic

This project models, in Dafny 4.11, the parts of the repository where state, concurrency or string
handling make a mistake hard to see, and proves what those parts are meant to guarantee. `dafny verify
dfyconfig.toml` checks all of it.

**The framebuffer of the graphics pipeline** (`services/rdp-core/src/egfx_surface.rs`, `egfx.rs`).
`EgfxSurface` is the class with its pixel array, dirty list, tile cache and byte count; every method is
proved to take the abstract `Screen` of `EgfxModel` to the value of a specification function. `DirtyRects`
shows that the merge cost counts exactly the pixels that would be sent needlessly, that no dirty pixel
is ever lost when rectangles are merged, and that a merge takes few clean ones along. `EgfxPixels` says what each draw does pixel by pixel in unbounded
coordinates, so 16-bit saturation and the two clips of a copy are shown not to move a pixel. `EgfxRuns` is
the renderer side: the pump announces a new size only at the top of its loop, and its flush takes the list
under one lock and extracts each rectangle under another, with draws, stores and resizes in between. It is
proved exactly when a flush leaves the renderer showing the framebuffer: every run does in which each new size
is heard, and the first one that is not breaks it. `EgfxTiles` follows the tile cache through such runs.
`EgfxHandler` is the protocol handler on top: surfaces mapped to origins, and lists of rectangles and points.

**The iOS framebuffer, damage queue and texture** (`RemoteDesktopSessionManager.swift`,
`RemoteDesktopMetalView.swift`). `SessionEntry` holds the classes; `DamageProtocol` is the transition system
of their lock sections, in which the worker may stop between allocating and marking, or copying and
pushing, and the main thread between draining and uploading.

**The life of native sessions** (`ffi.rs`, `runtime.rs`, and the Swift teardown). `SessionLifetime` is a
transition system over create, start, disconnect, destroy and join from any number of threads, including a
session's own worker thread; `SessionAnswers` says what the other answers mean over whole runs; `Teardown` and
`TeardownAnswers` put the Swift retry loop on top of it.

**The loopback tunnel** (`services/ssh-core/mobile/rdtunnel.go`). `TunnelBridges` is one tunnel: accept
loop, bridges, the stages of `Close`; `TunnelRegistry` is the registry and the read-write gate around any
number of tunnels; `TunnelTrust` says who gets through one.

**Shared text and list logic** (`packages/shared-core/src`). `TerminalInput` reconstructs a command line
from terminal input, `TerminalKeys` says what each key does to the line, and `TerminalPieces` what cutting the
input does; `GroupPaths` proves that the operations on slash-separated strings are operations on segments;
`GroupTree` and `GroupCollect` order group paths as a tree; `GroupReorder` plans rank changes; `GroupLists` and
`GroupMutations` move and remove groups, `GroupRecords` and `GroupRemoval` say record by record what comes out,
`GroupRefusals` exactly what is refused, and `GroupMoves` what moving back does; `QuickSsh` and
`QuickSshCommands` read addresses and `ssh` commands; `Base64` is a codec.

**Wire formats of the cores**: `Framing` (stdio frames) and `AudioInput` (the microphone channel, MS-RDPEAI).

`Words`, `Raster`, `Pixels`, `JsText` and `Selections` hold machine integers, row and stride arithmetic,
JavaScript strings, and what it means to select from a list in order. A sort is the stable insertion sort whose three defining properties (sorted, a permutation, ties in
order) are proved; `localeCompare` is any total order; randomness, hashes and clocks are parameters.

## Where a promise needs a condition

* The renderer is told of a new size only if the framebuffer's size differs from the one announced last when
  the pump checks. A size that goes away and comes back before that check blanks the framebuffer unannounced
  (`AwayAndBack`, reached in `AwayAndBackReached`); a reactivation announces its size without recording it, so a
  deferred reset to the recorded size is never announced (`ReactivatedAndBack`). The exact guard of each command
  is `EgfxRuns.Heard`: a new size must differ from the announced one and from the renderer's, or find a blank
  renderer of that size; an event sent without recording it must name the renderer's or the framebuffer's size,
  or come while a check is due. `FlushRepairsIff` proves that this is exact, and `RefreshRepairs` when a refresh
  mends what was missed.
* An off-screen `cache_store` returns true and leaves the slot as it was. After a store that returned true the
  slot shows the source if and only if some of the source was on the screen (`SlotShowsSourceIff`); if none was,
  restoring paints the older tile or fails (`OffScreenStoreRestores`, reached in `OlderTileReached`).
* A second destroyer can be told that the handle is invalid while the worker still runs
  (`InvalidHandleWithLiveWorker`); only success promises that it is gone. A live worker's token is missing from
  the registry if and only if another destroy is in flight (`InvalidHandleMeans`).
* `drdp_session_destroy` answers `CallbackThread` in exactly two cases (`CallbackThreadMeans`): on the running
  worker's own thread, or when the worker it joined had panicked; the token is then gone from the registry
  (`CallbackThreadAfterPanic`).
* Feeding terminal input in pieces is feeding it at once when the pieces meet between tokens or inside a
  surrogate pair. A piece that ends inside an escape sequence leaves the buffer ambiguous; so for input that ends
  unambiguous, with no Ctrl-U after the cut, the pieces agree only then (`PiecesAgreeIff`, cut through in
  `SplitInsideEscapeDiffers`, wiped by a Ctrl-U in `KillWipesTheCut`). No cut makes an unambiguous buffer wrong
  (`NeverWrong`).
* A quick-connect label reads back exactly when the host name has no closing bracket (if it has a colon) or
  does not begin with an opening one (if not): `LabelReads` is an equivalence, `LabelMayNotRead` an input for which it fails.
* Moving a group there and back restores everything if and only if nothing outside the group was inside the new
  path (`MoveThereAndBack`); a neighbour there is moved back along with it (`NeighbourTakenAlong`). The way back
  cannot be planned when the new place is above the old one, nor by a rename when the new name has a slash
  (`MoveGroupAndBack`, `RenameGroupAndBack`).
* A frame beyond the reader's caps can be written; reading refuses it (`WrittenFrameReads` is exact).
* The size field of a format list is exact below 2^32 bytes and 0 beyond, as `unwrap_or(0)` makes it; so is its
  count field (`SizeIsExact`).

## Model

| member | source | states |
|---|---|---|
| DirtyRects.AreaCountsPixels | services/rdp-core/src/egfx_surface.rs:52-54 | the area product is the number of pixels of the rectangle |
| DirtyRects.OverlapCountsPixels | services/rdp-core/src/egfx_surface.rs:37-46 | the overlap area is the number of pixels two rectangles share, empty overlaps included |
| DirtyRects.MergeCostCountsCleanPixels | services/rdp-core/src/egfx_surface.rs:37-54 | what a merge costs is the number of pixels of the bounding box in neither rectangle, so the unsigned subtractions never underflow |
| DirtyRects.MarkedIsGood | services/rdp-core/src/egfx_surface.rs:178-232 | marking keeps at most 8 rectangles, none empty, all inside the screen |
| DirtyRects.MarkedCovers | services/rdp-core/src/egfx_surface.rs:178-232 | no pixel that was covered, and none of the new rectangle, is uncovered by a merge or by overflow |
| DirtyRects.CheapestUnique | services/rdp-core/src/egfx_surface.rs:186-204 | the first cheapest rectangle is determined, so the search loop has one right answer |
| DirtyRects.CheapestPairUnique | services/rdp-core/src/egfx_surface.rs:218-231 | so is the pair merged on overflow |
| DirtyRects.MergedWhenCheap | services/rdp-core/src/egfx_surface.rs:178-232 | a new rectangle is merged exactly when some merge takes at most 320 x 180 clean pixels along, into one for which that is least; otherwise it is appended while there are fewer than 8 |
| DirtyRects.MarkedAddsLittle | services/rdp-core/src/egfx_surface.rs:178-232 | unless the list overflows, marking adds at most 320 x 180 pixels that nothing had drawn on |
| EgfxSurface.MergeCost | services/rdp-core/src/egfx_surface.rs:187-200 | the cost in unsigned 64-bit steps, none of which wraps |
| EgfxSurface.Surface.CheapestMerge | services/rdp-core/src/egfx_surface.rs:186-204 | the loop finds the first rectangle whose merge costs least, and its cost |
| EgfxSurface.Surface.CheapestPair | services/rdp-core/src/egfx_surface.rs:218-229 | the nested loops find the first pair with the smallest bounding box |
| EgfxSurface.Surface.MarkDirty | services/rdp-core/src/egfx_surface.rs:178-232 | the in-place list becomes the specified list |
| EgfxSurface.Surface.TryResize | services/rdp-core/src/egfx_surface.rs:126-149 | refuses an oversized screen and changes nothing; otherwise blank pixels, no dirt, empty cache and count |
| EgfxSurface.Surface.ClipBox | services/rdp-core/src/egfx_surface.rs:166-176 | the saturating clip equals the specified one |
| EgfxModel.ClipIsIntersection | services/rdp-core/src/egfx_surface.rs:166-176 | clipping is intersection with the screen: a pixel is in the clip exactly when it is in both, whatever saturates |
| EgfxSurface.Surface.Write | services/rdp-core/src/egfx_surface.rs:235-254 | the row loop writes the clipped box and marks it; all slices are in bounds; a short buffer changes nothing |
| EgfxSurface.Surface.Copy | services/rdp-core/src/egfx_surface.rs:257-295 | copying through the scratch rows equals pasting from the screen as it was before |
| EgfxSurface.Surface.Fill | services/rdp-core/src/egfx_surface.rs:298-317 | the row loop paints the clipped box opaque and marks it |
| EgfxSurface.Surface.CacheStore | services/rdp-core/src/egfx_surface.rs:320-363 | stores the packed clip within the byte budget, or refuses and changes nothing |
| EgfxSurface.Surface.CacheRestore | services/rdp-core/src/egfx_surface.rs:366-402 | pastes the clipped tile and marks it; says whether the slot is known |
| EgfxSurface.Surface.CacheEvict | services/rdp-core/src/egfx_surface.rs:404-408 | removes a slot and its bytes from the count |
| EgfxSurface.Surface.MarkAllDirty | services/rdp-core/src/egfx_surface.rs:416-422 | the list becomes the whole screen, or stays empty with no screen |
| EgfxSurface.Surface.TakeDirty | services/rdp-core/src/egfx_surface.rs:425-438 | hands out the whole list in order and empties it |
| EgfxSurface.Surface.Extract | services/rdp-core/src/egfx_surface.rs:441-454 | yields the packed rows of a rectangle that fits, nothing for one that does not |
| EgfxModel.StoredValid | services/rdp-core/src/egfx_surface.rs:320-363 | the byte count is exactly the sum of the stored tiles and within budget, so the saturating subtraction is exact; a refused store changes nothing |
| EgfxModel.RestoredValid | services/rdp-core/src/egfx_surface.rs:366-402 | restoring keeps every part of the surface invariant |
| EgfxModel.EvictedValid | services/rdp-core/src/egfx_surface.rs:404-408 | evicting keeps the byte count exact |
| EgfxModel.EvictedForgets | services/rdp-core/src/egfx_surface.rs:404-408 | the evicted slot is unknown, every other slot is held as before, the count falls by exactly its tile, and nothing else changes |
| EgfxModel.StoreFits | services/rdp-core/src/egfx_surface.rs:320-363 | a store is accepted if and only if it stores nothing or stays, with the tiles of the other slots, within the budget |
| EgfxModel.EvictFrees | services/rdp-core/src/egfx_surface.rs:404-408 | the bytes an evict frees are available to the next store |
| EgfxModel.ResizedValid | services/rdp-core/src/egfx_surface.rs:126-149 | resizing keeps the invariant, accepted or refused |
| EgfxModel.ResizedMeans | services/rdp-core/src/egfx_surface.rs:126-149 | which sizes are refused and which change nothing; a new size starts with blank pixels, no dirt, no slot and no byte counted |
| EgfxModel.CopiedValid | services/rdp-core/src/egfx_surface.rs:257-295 | copying keeps the invariant |
| EgfxPixels.WrittenIsPlaceAt | services/rdp-core/src/egfx_surface.rs:235-254 | writing through saturated coordinates places the image at its true, unbounded position, cut at the screen, and touches no other pixel |
| EgfxPixels.PaintedIsFillAt | services/rdp-core/src/egfx_surface.rs:298-317 | filling colours exactly the pixels of the true rectangle that are on the screen |
| EgfxPixels.CopiedIsCopyAt | services/rdp-core/src/egfx_surface.rs:257-295 | a copy gives each destination pixel the old pixel at its true source, when that source is on the screen, and leaves every other pixel |
| EgfxPixels.RestoredIsPlaceAt | services/rdp-core/src/egfx_surface.rs:366-402 | restoring places the tile at its true position |
| EgfxPixels.SaturatedSum | services/rdp-core/src/egfx.rs:788-819 | adding a local offset to a saturated origin saturates the true sum |
| EgfxRuns.StepKeeps | services/rdp-core/src/session.rs:561-623 | in every run, whatever is resized, announced or sent: as long as a size has not been announced, all that was drawn at that size is still in the dirty list |
| EgfxRuns.StepRepairable | services/rdp-core/src/session.rs:561-623 | as long as the renderer can be repaired (it has the right size and what it shows wrongly will be sent, or it is about to start blank), each command or pump step leaves it so exactly when the guard of that command holds |
| EgfxRuns.SendExact | services/rdp-core/src/session.rs:784-808 | extracting and sending one rectangle repairs exactly the bytes that waited for it, resized or not in between |
| EgfxRuns.TakeExact | services/rdp-core/src/session.rs:778-782 | after the check and a take, all that the renderer shows wrongly is in hand exactly when it could be repaired before |
| EgfxRuns.QuietMeansEqual | services/rdp-core/src/session.rs:768-812 | after any run whose resizes were heard, once nothing is left to announce or send the renderer shows the framebuffer |
| EgfxRuns.FlushExact | services/rdp-core/src/session.rs:768-812 | in every state of any run, one complete flush makes the renderer show the framebuffer if and only if it can be repaired, with at most 8 frames |
| EgfxRuns.FlushRepairs | services/rdp-core/src/session.rs:768-812 | after any run whose resizes were all heard, one flush makes the renderer show the framebuffer |
| EgfxRuns.FlushRepairsIff | services/rdp-core/src/session.rs:561-576 | the guard is exact: after such a run and one more command, a flush makes the renderer show the framebuffer if and only if that command was heard |
| EgfxRuns.RefreshRepairs | services/rdp-core/src/session.rs:1528-1560 | after any run at all a refresh repairs an arbitrary picture if and only if the renderer has the right size or is about to be told it |
| EgfxRuns.AwayAndBack | services/rdp-core/src/session.rs:561-576 | a size that goes away and back before the check leaves the renderer its old picture over a blank framebuffer |
| EgfxRuns.AwayAndBackReached | services/rdp-core/src/session.rs:561-576 | a reached state in which that picture is white |
| EgfxRuns.ReactivatedAndBack | services/rdp-core/src/session.rs:679-750 | a reactivation followed by a deferred reset to the recorded size leaves the renderer at the wrong size |
| EgfxTiles.SlotShowsSourceIff | services/rdp-core/src/egfx_surface.rs:320-402 | after a store that returned true and any run that leaves the slot alone, the slot has the size and pixels of the stored rectangle if and only if some of it was on the screen; if not, it is what it was |
| EgfxTiles.RestorePaintsStoredPixels | services/rdp-core/src/egfx_surface.rs:320-402 | restoring pastes the pixels the screen showed when the slot was stored, whatever was drawn, taken, sent, refused or resized to the same size since |
| EgfxTiles.OffScreenStoreRestores | services/rdp-core/src/egfx_surface.rs:320-402 | after an off-screen store, restoring places the older tile, or fails if the slot held none |
| EgfxTiles.OlderTileReached | services/rdp-core/src/egfx_surface.rs:320-402 | a reached state in which an off-screen store returns true and restoring paints a white tile on a black screen |
| EgfxTiles.EvictedIsGone | services/rdp-core/src/egfx_surface.rs:366-408 | after an evict and any run in which no store fills the slot, restoring it fails and draws nothing |
| EgfxTiles.ResizedIsGone | services/rdp-core/src/egfx_surface.rs:126-149 | so it is for every slot after a change of size |
| EgfxHandler.FillAllPixels | services/rdp-core/src/egfx.rs:878-897 | a fill of many rectangles colours exactly their pixels, moved by the true origin and cut at the screen |
| EgfxHandler.CopyAllPixels | services/rdp-core/src/egfx.rs:821-876 | each target of a copy is the true copy of what the targets before it left |
| EgfxHandler.RestoreAllPixels | services/rdp-core/src/egfx.rs:933-958 | each target of a known slot shows its tile at the true position; an unknown slot draws nothing |
| EgfxHandler.Handler.OnSurfaceMapped | services/rdp-core/src/egfx.rs:772-786 | records the origin, saturated to 16 bits, as the representation of the true one |
| EgfxHandler.Handler.OnSurfaceMappedScaled | services/rdp-core/src/egfx.rs:647-675 | maps only at the surface's own size |
| EgfxHandler.Handler.OnSurfaceDeleted | services/rdp-core/src/egfx.rs:764-770 | forgets origin and size |
| EgfxHandler.Handler.OnResetGraphics | services/rdp-core/src/egfx.rs:721-751 | resizes, or is marked unusable and leaves the screen alone |
| EgfxHandler.Handler.OnBitmapUpdated | services/rdp-core/src/egfx.rs:788-819 | writes at the true position; nothing for an unmapped surface or empty data |
| EgfxHandler.Handler.OnSolidFill | services/rdp-core/src/egfx.rs:878-897 | the fills of all rectangles at true positions; nothing for an unmapped surface |
| EgfxHandler.Handler.OnSurfaceToSurface | services/rdp-core/src/egfx.rs:821-876 | the copies to all points at true positions; nothing unless both surfaces are mapped |
| EgfxHandler.Handler.OnSurfaceToCache | services/rdp-core/src/egfx.rs:899-931 | stores from the true position; a refused store marks the handler unusable |
| EgfxHandler.Handler.OnCacheToSurface | services/rdp-core/src/egfx.rs:933-958 | restores at all points; says whether the slot was known |
| SessionEntry.Entry.AllocateFramebuffer | packages/react-native-remote-desktop/ios/RemoteDesktopSessionManager.swift:153-183 | a new or kept buffer with the right generation, and full damage; a refused size changes nothing |
| SessionEntry.Entry.CopyFrame | packages/react-native-remote-desktop/ios/RemoteDesktopSessionManager.swift:197-226 | an accepted rectangle is overwritten and queued; an invalid one asks for a full refresh |
| SessionEntry.Entry.PushDamage | packages/react-native-remote-desktop/ios/RemoteDesktopSessionManager.swift:230-243 | queues, or turns into full damage at 64 rectangles |
| SessionEntry.Entry.DrainDamage | packages/react-native-remote-desktop/ios/RemoteDesktopSessionManager.swift:254-267 | hands out all damage and leaves none |
| SessionEntry.View.UploadRects | packages/react-native-remote-desktop/ios/RemoteDesktopMetalView.swift:427-449 | replaces exactly the fitting rectangles of the texture by the framebuffer's pixels |
| SessionEntry.View.UploadLocked | packages/react-native-remote-desktop/ios/RemoteDesktopMetalView.swift:403-450 | recreates the texture on a new generation or size, asks for a full refresh if it cannot, else uploads the batch |
| SessionEntry.View.UploadDirtyRegions | packages/react-native-remote-desktop/ios/RemoteDesktopMetalView.swift:397-450 | drain and upload together; with full damage the texture becomes the framebuffer |
| DamageModel.ReplacedAllAt | packages/react-native-remote-desktop/ios/RemoteDesktopMetalView.swift:427-449 | after the upload loop a byte is the framebuffer's exactly where some fitting rectangle has it |
| DamageModel.FullUpload | packages/react-native-remote-desktop/ios/RemoteDesktopMetalView.swift:403-450 | a full upload makes the texture the framebuffer, whatever a new texture contained |
| DamageModel.AllocatedMeans | packages/react-native-remote-desktop/ios/RemoteDesktopSessionManager.swift:153-183 | a frame of another shape is all zero and of a new generation; one of the same shape is kept |
| DamageModel.CopiedAt | packages/react-native-remote-desktop/ios/RemoteDesktopSessionManager.swift:208-224 | an accepted copy, byte by byte: the payload inside the rectangle, the old byte outside |
| DamageProtocol.StepKeeps | packages/react-native-remote-desktop/ios/RemoteDesktopSessionManager.swift:153-288 | every lock section of either thread keeps each differing byte queued, in hand, about to be queued, or under a pending full refresh |
| DamageProtocol.NothingIsLost | packages/react-native-remote-desktop/ios/RemoteDesktopSessionManager.swift:153-288 | in every interleaving, with no full refresh pending, texture and framebuffer differ only inside pending rectangles |
| DamageProtocol.OneUploadCatchesUp | packages/react-native-remote-desktop/ios/RemoteDesktopMetalView.swift:397-450 | after any run, once the worker rests, one drain and one successful upload make them equal, across resizes, overflow and re-attachment |
| DamageProtocol.CopyReachesTexture | packages/react-native-remote-desktop/ios/RemoteDesktopSessionManager.swift:197-226 | from any reached state, an accepted copy, one drain and one successful upload leave the copied bytes in the texture, and around them what was there |
| DamageProtocol.AllocatedCopyReachesTexture | packages/react-native-remote-desktop/ios/RemoteDesktopSessionManager.swift:153-226 | the same across an allocation, which blanks the rest unless the shape is kept |
| SessionLifetime.StepKeeps | services/rdp-core/src/ffi.rs:270-458 | every step of any thread keeps the session invariant |
| SessionLifetime.DestroyedForEver | services/rdp-core/src/ffi.rs:408-458 | once a destroy returned success, no worker of that token runs and none ever starts, under any interleaving |
| SessionLifetime.CallbackThreadMeans | services/rdp-core/src/runtime.rs:154-187 | the answer is given if and only if destroy runs on the running worker's own thread, and then changes only the stop flag, or the joined worker panicked, and then the token is gone |
| SessionLifetime.OtherThreadsSucceed | services/rdp-core/src/ffi.rs:408-458 | a destroy that joined the worker is never on the worker itself, and answers success exactly when the worker did not panic |
| SessionLifetime.CallbackThreadAfterPanic | services/rdp-core/src/ffi.rs:408-458 | a reached state in which a destroy on another thread is answered so because of a panic |
| SessionLifetime.InvalidHandleMeans | services/rdp-core/src/ffi.rs:408-458 | while a worker lives, a destroy is told the handle is invalid, at its lookup or its removal, if and only if another destroy is in flight |
| SessionLifetime.InvalidHandleWithLiveWorker | services/rdp-core/src/ffi.rs:408-458 | a reachable state in which that happens |
| SessionAnswers.StartsOnce | services/rdp-core/src/ffi.rs:270-350 | in every run at most one start of a handle succeeds |
| SessionAnswers.StartAnswers | services/rdp-core/src/ffi.rs:270-350 | the other answers of start say exactly whether the session is running, destroyed, or was never started, and change nothing |
| SessionAnswers.UnknownHandles | services/rdp-core/src/ffi.rs:270-404 | start and disconnect refuse a handle at once exactly when it is not in the registry |
| SessionAnswers.DisconnectStays | services/rdp-core/src/ffi.rs:387-404 | a disconnect that found the session running has asked its worker to stop for ever |
| SessionAnswers.WaitsOnlyAfterStop | services/rdp-core/src/ffi.rs:444-456 | in every run a destroy that waits for the worker has asked it to stop |
| Teardown.NextKeeps | packages/react-native-remote-desktop/ios/RemoteDesktopSessionManager.swift:396-440 | every step of the teardown and of any other thread keeps the context unreleased while the worker lives |
| Teardown.MayBegin | packages/react-native-remote-desktop/ios/RemoteDesktopSessionManager.swift:396-440 | the teardown may begin in any reachable state in which nobody is destroying the handle |
| Teardown.ReleasedOnlyWhenGone | packages/react-native-remote-desktop/ios/RemoteDesktopSessionManager.swift:396-440 | from any such state, a released callback context means the worker is gone for good |
| TeardownAnswers.AnswerDecides | packages/react-native-remote-desktop/ios/RemoteDesktopSessionManager.swift:396-440 | any answer but the callback thread releases the context at once; that one means another try, or a leak |
| TeardownAnswers.GivesUpAfterSix | packages/react-native-remote-desktop/ios/RemoteDesktopSessionManager.swift:396-440 | in every run the context is leaked if and only if the teardown has been told six times that it ran on the callback thread |
| TunnelBridges.StepKeeps | services/ssh-core/mobile/rdtunnel.go:270-362 | every step of the accept loop and of a bridge keeps both counters exact, at most 4 bridges, and each open connection in exactly one hand |
| TunnelBridges.CloseStepKeeps | services/ssh-core/mobile/rdtunnel.go:96-118 | so does every stage of `Close`, and each stage has had its effect |
| TunnelBridges.WaitedMeansQuiet | services/ssh-core/mobile/rdtunnel.go:96-118 | an empty wait group after the once-body means nothing runs that could use a connection |
| TunnelBridges.QuietMeansClosed | services/ssh-core/mobile/rdtunnel.go:96-118 | a quiet tunnel has no open connection and no listener, and stays quiet whatever follows, a late start of the loop included |
| TunnelBridges.ServedOnce | services/ssh-core/mobile/rdtunnel.go:309-330 | a connection handed to one bridge is never handed to another |
| TunnelRegistry.NextKeeps | services/ssh-core/mobile/rdtunnel.go:136-292 | opening, closing and sweeping from any threads keep every tunnel registered, closed, or in the hand of a thread that holds the gate |
| TunnelRegistry.ClosedForGood | services/ssh-core/mobile/rdtunnel.go:96-118 | in every run, once a `Close` has returned all connections of the tunnel are closed and no bridge ever begins again |
| TunnelRegistry.SweepMissesNothing | services/ssh-core/mobile/rdtunnel.go:154-166 | in every run, when the sweep is about to return every tunnel ever made is shut and no open is under way |
| TunnelRegistry.BridgesLimited | services/ssh-core/mobile/rdtunnel.go:270-292 | in every run at most 4 bridges of a tunnel are active |
| TunnelRegistry.OneBridgePerConnection | services/ssh-core/mobile/rdtunnel.go:309-330 | in every run a connection, the pre-dialled one included, is only ever held by one bridge |
| TunnelTrust.OnlyAuthenticated | services/ssh-core/mobile/rdtunnel.go:294-330 | in every run nothing remote is handed to a connection whose authentication did not succeed |
| TunnelTrust.ReadyIsUsedFirst | services/ssh-core/mobile/rdtunnel.go:309-330 | in every run nothing more is dialled and no bridge copies before the connection dialled in advance has been handed out or taken by `Close` |
| TunnelTrust.ReadyIsTaken | services/ssh-core/mobile/rdtunnel.go:309-330 | the first bridge past authentication takes that connection |
| TunnelTrust.AdmittedIff | services/ssh-core/mobile/rdtunnel.go:270-292 | an accepted connection is bridged if and only if fewer than four bridges are active; otherwise it is closed and the count is as before |
| TunnelTrust.CancelCloses | services/ssh-core/mobile/rdtunnel.go:332-347 | once the tunnel is cancelled the watcher of a bridge closes both its ends |
| TerminalInput.ApplyEscape | packages/shared-core/src/terminal-autocomplete.ts:78-138 | the chain of prefix tests recognizes the first token and has its effect |
| TerminalInput.ApplyCharacter | packages/shared-core/src/terminal-autocomplete.ts:140-190 | so does the switch on a character, surrogate pairs included |
| TerminalInput.ApplyTerminalInput | packages/shared-core/src/terminal-autocomplete.ts:71-194 | the loop replays exactly the tokens of the input |
| TerminalInput.ReplayIsReferenceEditor | packages/shared-core/src/terminal-autocomplete.ts:71-194 | when a run ends unambiguous, no token since the last Ctrl-U made the line unknowable, and the buffer is what a two-sided editor makes of those tokens; the cursor never leaves the line |
| TerminalKeys.LeftKey | packages/shared-core/src/terminal-autocomplete.ts:85-89 | ESC [ D or ESC O D moves one unit from the left of the cursor to its right, whatever follows; at the start nothing |
| TerminalKeys.RightKey | packages/shared-core/src/terminal-autocomplete.ts:90-94 | ESC [ C or ESC O C moves one unit the other way |
| TerminalKeys.HomeKey | packages/shared-core/src/terminal-autocomplete.ts:113-121 | ESC [ H, ESC O H, ESC [ 1 ~ and Ctrl-A put the cursor before the line |
| TerminalKeys.EndKey | packages/shared-core/src/terminal-autocomplete.ts:122-130 | ESC [ F, ESC O F, ESC [ 4 ~ and Ctrl-E put it behind the line |
| TerminalKeys.DeleteKey | packages/shared-core/src/terminal-autocomplete.ts:105-112 | ESC [ 3 ~ takes away the unit right of the cursor |
| TerminalKeys.BackspaceKey | packages/shared-core/src/terminal-autocomplete.ts:157-165 | DEL and BS take away the unit left of it |
| TerminalKeys.PrintableKey | packages/shared-core/src/terminal-autocomplete.ts:181-190 | a printable unit goes in left of the cursor |
| TerminalKeys.PairKey | packages/shared-core/src/terminal-autocomplete.ts:145-190 | so does a surrogate pair |
| TerminalKeys.KillKey | packages/shared-core/src/terminal-autocomplete.ts:172-174 | Ctrl-U leaves an empty line that is known |
| TerminalKeys.HistoryKey | packages/shared-core/src/terminal-autocomplete.ts:95-104 | up, down and Ctrl-C leave an empty line that is not known |
| TerminalKeys.EnterKey | packages/shared-core/src/terminal-autocomplete.ts:152-156 | CR and LF execute the trimmed line, or nothing if it is blank |
| TerminalKeys.ControlKey | packages/shared-core/src/terminal-autocomplete.ts:178-190 | Tab and every other control unit leave the text and make the line unknown |
| TerminalKeys.PasteKey | packages/shared-core/src/terminal-autocomplete.ts:80-84 | so do the markers of a bracketed paste |
| TerminalKeys.UnknownSequence | packages/shared-core/src/terminal-autocomplete.ts:131-143 | every other control sequence is swallowed whole and makes the line unknown |
| TerminalKeys.UnknownSs3 | packages/shared-core/src/terminal-autocomplete.ts:131-143 | so is ESC O with any other unit that ends no line |
| TerminalKeys.LoneEscape | packages/shared-core/src/terminal-autocomplete.ts:131-143 | an ESC that begins neither goes alone |
| TerminalKeys.TypedThenLeft | packages/shared-core/src/terminal-autocomplete.ts:71-194 | `ab`, left, `c` make `acb` with the cursor behind the `c` |
| TerminalPieces.TokensSplit | packages/shared-core/src/terminal-autocomplete.ts:78-138 | cutting input between tokens cuts its token list |
| TerminalPieces.FeedingInPieces | packages/shared-core/src/terminal-autocomplete.ts:71-194 | feeding two pieces that meet between tokens or inside a surrogate pair equals feeding them at once, and the executed command is the later piece's if it ends a line |
| TerminalPieces.EscapeCut | packages/shared-core/src/terminal-autocomplete.ts:78-138 | a piece that ends inside an escape sequence always leaves the buffer ambiguous |
| TerminalPieces.PiecesAgreeIff | packages/shared-core/src/terminal-autocomplete.ts:71-194 | for input that ends unambiguous, with no Ctrl-U in the second piece, the pieces give the same buffer if and only if they do not meet inside an escape sequence |
| TerminalPieces.NeverWrong | packages/shared-core/src/terminal-autocomplete.ts:71-194 | wherever input is cut: if the buffer is unambiguous both ways, it is the same buffer |
| TerminalPieces.SplitInsideEscapeDiffers | packages/shared-core/src/terminal-autocomplete.ts:126-138 | a cut inside an arrow key that loses the buffer |
| TerminalPieces.KillWipesTheCut | packages/shared-core/src/terminal-autocomplete.ts:126-168 | the same cut followed by a Ctrl-U, which makes the pieces agree |
| Base64.BuildLookup | packages/shared-core/src/base64.ts:12-18 | the table built from the alphabet inverts it |
| Base64.BytesToBase64 | packages/shared-core/src/base64.ts:20-37 | the loop over groups of three writes the specified text, padding included |
| Base64.SextetsDecode | packages/shared-core/src/base64.ts:20-37 | the symbols of an encoding stand for the number the bytes write |
| Base64.WrapLosesNothing | packages/shared-core/src/base64.ts:60-65 | the byte taken from the wrapping 32-bit buffer is the byte of the unbounded number |
| Base64.OneMoreSymbol | packages/shared-core/src/base64.ts:54-66 | every symbol but the first of four completes exactly one byte |
| Base64.DecodeSymbols | packages/shared-core/src/base64.ts:54-67 | for every valid symbol string the loop yields each of the floor(3n/4) bytes; any other string is refused |
| Base64.Base64ToBytes | packages/shared-core/src/base64.ts:39-68 | decodes to the bytes of the number the symbols write, for any text |
| Base64.DecodeUndoesEncode | packages/shared-core/src/base64.ts:20-68 | decoding an encoding gives the bytes back, for every byte string |
| GroupPaths.NormalizeIsCanonical | packages/shared-core/src/group-paths.ts:10-17 | normalizing is idempotent and keeps exactly the segments |
| JsText.TrimMeans | packages/shared-core/src/group-paths.ts:10-17 | trimming takes all spaces off both ends and nothing else |
| GroupPaths.SegmentsMean | packages/shared-core/src/group-paths.ts:10-17 | for any text, a slash parts it, and a part without one is a segment without the spaces around it, or none |
| GroupPaths.SegmentsOfJoin | packages/shared-core/src/group-paths.ts:10-17 | a list of segments and its string form determine each other |
| GroupPaths.WithinIsPrefix | packages/shared-core/src/group-paths.ts:32-40 | the string test for being inside is exactly the prefix relation on segments |
| GroupPaths.ParentIsInit | packages/shared-core/src/group-paths.ts:19-25 | the parent is the path without its last segment, however it was written |
| GroupPaths.LabelIsLast | packages/shared-core/src/group-paths.ts:27-30 | the label is the last segment |
| GroupPaths.RebaseMovesPrefix | packages/shared-core/src/group-paths.ts:155-173 | rebasing strings replaces a prefix of segments, for arguments in any form |
| GroupPaths.StripLifts | packages/shared-core/src/group-paths.ts:139-153 | removing a group takes its segment out of every path inside it |
| GroupPaths.ThereAndBack | packages/shared-core/src/group-paths.ts:155-173 | rebasing back restores a path that was inside, or outside both places |
| GroupReorder.CompareIsPreorder | packages/shared-core/src/group-ordering.ts:21-38 | the comparison is a total preorder, as sorting needs |
| GroupReorder.CompareMeans | packages/shared-core/src/group-ordering.ts:21-38 | the comparison is the order promised: ranked first, by rank and then id; the rest by path |
| GroupReorder.SortIsStable | packages/shared-core/src/group-ordering.ts:127-131 | sorting orders the list, loses nothing, and keeps ties in their order |
| GroupReorder.SortedMeans | packages/shared-core/src/group-ordering.ts:127-131 | a list is sorted if and only if it is in that order |
| GroupReorder.PlanGroupReorder | packages/shared-core/src/group-ordering.ts:66-109 | the splices and the chain of cases give the specified plan |
| GroupReorder.PlanMoves | packages/shared-core/src/group-ordering.ts:66-109 | writing the planned ranks and sorting again shows the list the user left, in the one-change and the renumber cases alike |
| GroupReorder.MovedStandsAtTarget | packages/shared-core/src/group-ordering.ts:66-109 | the moved id stands at the clamped index and the others keep their order |
| GroupReorder.UnknownStays | packages/shared-core/src/group-ordering.ts:66-74 | an unknown id changes nothing |
| GroupReorder.SeedKeepsOrder | packages/shared-core/src/group-ordering.ts:117-124 | seeding ranks in the order shown changes nothing that is shown |
| GroupReorder.NextGroupRank | packages/shared-core/src/group-ordering.ts:41-49 | the loop's result is one step above the highest rank, or one step |
| GroupReorder.NewGroupGoesLast | packages/shared-core/src/group-ordering.ts:41-49 | a group with that rank is shown behind every ranked sibling |
| GroupTree.WalkIs | packages/shared-core/src/group-paths.ts:100-118 | the recursion yields exactly the paths below a node, each subtree in one piece behind its root, siblings in order |
| GroupTree.BucketsOf | packages/shared-core/src/group-paths.ts:88-98 | the map of buckets holds the children of each path in order |
| GroupTree.Emit | packages/shared-core/src/group-paths.ts:101-117 | the pushing recursion terminates and appends the walk |
| GroupCollect.AppendPathWithAncestors | packages/shared-core/src/group-paths.ts:57-66 | adds a path and everything above it, once each |
| GroupCollect.AboveIsWithin | packages/shared-core/src/group-paths.ts:32-40 | lying above in the tree is what the string test says |
| GroupCollect.CollectGroupPaths | packages/shared-core/src/group-paths.ts:54-119 | without duplicates exactly the non-empty ancestors-or-self of all named paths, as a pre-order walk with siblings in order |
| GroupCollect.SiblingsShown | packages/shared-core/src/group-paths.ts:105-112 | siblings of the walk stand in the order promised |
| GroupCollect.SeenIsLastRecord | packages/shared-core/src/group-paths.ts:88-112 | what orders a path is its last record, or the path alone |
| GroupMutations.MaterializeImplicitHostGroups | packages/shared-core/src/group-mutations.ts:95-118 | adds one record for each path inside the target that has a host and no record |
| GroupMutations.AdditionsDistinct | packages/shared-core/src/group-mutations.ts:95-118 | the records added share no path with each other or with those that were there |
| GroupRecords.AnchorIsLeast | packages/shared-core/src/group-mutations.ts:95-118 | the anchor of a path is the first host inside it with the least id |
| GroupRecords.AdditionsExactly | packages/shared-core/src/group-mutations.ts:95-118 | one record for each path that only hosts name and no other, in the order of the paths, with name, parent, times and id as promised |
| GroupMutations.MutateGroupPathIn | packages/shared-core/src/group-mutations.ts:124-191 | after implicit groups have got their records, the filters, the map and the loop give the specified move, or the same error |
| GroupLists.AddMovedIs | packages/shared-core/src/group-mutations.ts:157-173 | the loop succeeds exactly when no two records would share a path, and then has moved each one |
| GroupMutations.MoveKeepsPathsDistinct | packages/shared-core/src/group-mutations.ts:124-191 | a move that succeeds leaves no two groups with one path, whatever the records were |
| GroupMutations.MoveYields | packages/shared-core/src/group-mutations.ts:124-191 | exactly when a move succeeds, and that it yields the other groups followed by the moved subtree |
| GroupMutations.HostsMove | packages/shared-core/src/group-mutations.ts:175-190 | every host is kept in its place, its group moved along |
| GroupRecords.MovedExactly | packages/shared-core/src/group-mutations.ts:124-191 | a move yields the records outside unchanged and in order, then those inside in order, each with the new path, name and parent and otherwise as it was; hosts outside are unchanged |
| GroupMutations.NothingToAdd | packages/shared-core/src/group-mutations.ts:95-191 | moving back finds no implicit group to make a record for |
| GroupMoves.MoveThereAndBack | packages/shared-core/src/group-mutations.ts:124-191 | moving a subtree and moving it back succeeds and restores every group path and every host's group if and only if nothing outside it was inside the new path |
| GroupMoves.NeighbourTakenAlong | packages/shared-core/src/group-mutations.ts:124-191 | an occupied place: `a` moves to `b` and back, and `b/x` ends at `a/x` |
| GroupMutations.PlannedMove | packages/shared-core/src/group-mutations.ts:224-256 | an accepted move keeps the name, takes the new parent, and never goes into the moved subtree |
| GroupMutations.PlannedRename | packages/shared-core/src/group-mutations.ts:194-221 | an accepted rename keeps the parent and puts the new name's segments in place of the last one |
| GroupRefusals.MovePlanIs | packages/shared-core/src/group-mutations.ts:224-256 | a move is planned or refused, with which error, by the segments of the two paths alone |
| GroupRefusals.RenamePlanIs | packages/shared-core/src/group-mutations.ts:194-221 | so is a rename |
| GroupRefusals.MoveRefusedIff | packages/shared-core/src/group-mutations.ts:124-191 | a planned move is refused if and only if there is nothing to move or no room at the new path, and each error means one of these |
| GroupMoves.MoveGroupIn | packages/shared-core/src/group-mutations.ts:224-256 | the complete move: the planned error, or the move to the planned path |
| GroupMoves.RenameGroupIn | packages/shared-core/src/group-mutations.ts:194-221 | the complete rename, likewise |
| GroupMoves.AllFollow | packages/shared-core/src/group-mutations.ts:124-191 | after a move or rename every record and every host has the new segments where it had the old ones; no record is lost and no two share a path |
| GroupMoves.MoveGroupAndBack | packages/shared-core/src/group-mutations.ts:224-256 | a planned move and the opposite move: the second is refused exactly when the new place is above the old one, and it restores everything if and only if the new place was vacant |
| GroupMoves.RenameGroupAndBack | packages/shared-core/src/group-mutations.ts:194-221 | a rename and renaming back to the old label: the second is the opposite move exactly when the new name was one segment, and it restores everything if and only if the new place was vacant |
| GroupMutations.RemoveGroupFrom | packages/shared-core/src/group-mutations.ts:265-349 | the two modes give the specified removal, or the same error |
| GroupRefusals.RemovalRefusedIff | packages/shared-core/src/group-mutations.ts:265-290 | removing is refused if and only if the path has no segment or there is nothing to remove |
| GroupRemoval.DeletedExactly | packages/shared-core/src/group-mutations.ts:292-301 | deleting keeps, in order and unchanged, exactly the records and hosts whose segments do not begin with the group's, and reports exactly the ids of the others |
| GroupRemoval.LiftedExactly | packages/shared-core/src/group-mutations.ts:303-349 | lifting keeps the records outside as they were and, behind them in order, those inside one level up, except the group itself and those whose new place is taken; it reports exactly those ids, and hosts stay in place |
| GroupLists.LiftSplitsIds | packages/shared-core/src/group-mutations.ts:303-329 | lifting splits the ids exactly into kept and removed, keeps paths distinct and earlier groups in place, and leaves a group at every place lifted to |
| GroupMutations.RemovalSplitsGroups | packages/shared-core/src/group-mutations.ts:265-349 | in either mode the group ids split exactly into kept and removed |
| GroupMutations.RemovalKeepsHosts | packages/shared-core/src/group-mutations.ts:292-349 | host ids split exactly; lifting removes no host, keeps their order, and takes the removed segment out of their groups |
| QuickSsh.SplitCommandTokens | packages/shared-core/src/quick-connect.ts:16-44 | the quoting loop gives the specified tokens |
| QuickSshCommands.ParseQuickSshCommand | packages/shared-core/src/quick-connect.ts:94-148 | the whole command parser gives the specified address |
| QuickSshCommands.ReadArguments | packages/shared-core/src/quick-connect.ts:100-135 | so does its loop over the arguments |
| QuickSshCommands.WordsRead | packages/shared-core/src/quick-connect.ts:16-44 | words with any spaces between and around them, and any parts in quotes of either kind, are read as what they are |
| QuickSshCommands.OptionsRead | packages/shared-core/src/quick-connect.ts:100-135 | for any list of `-p N`, `-pN` and targets: the last port counts, and a second target is refused |
| QuickSshCommands.HostForms | packages/shared-core/src/quick-connect.ts:54-92 | a host alone, with a port, in brackets, in brackets with a port, and with several colons |
| QuickSshCommands.CommandReads | packages/shared-core/src/quick-connect.ts:94-148 | a command with one target reads as its user and host, and as port the last one given as an option, else the one of the target |
| QuickSshCommands.AddressReads | packages/shared-core/src/quick-connect.ts:160-186 | an address alone, with any spaces around it, reads as its user, host and port |
| QuickSshCommands.OneTargetOnly | packages/shared-core/src/quick-connect.ts:94-148 | no target, or more than one, is no command |
| QuickSshCommands.UsualForms | packages/shared-core/src/quick-connect.ts:94-148 | `ssh -p N u@h`, `ssh -pN u@h` and `ssh u@h:M -p N` read as user u, host h and port N, however quoted |
| QuickSsh.ParseHostPort | packages/shared-core/src/quick-connect.ts:54-92 | the branches on brackets and colons give the specified host and port |
| QuickSsh.PortReads | packages/shared-core/src/quick-connect.ts:46-52 | the decimal form of every port reads back |
| QuickSsh.HostReads | packages/shared-core/src/quick-connect.ts:54-92 | the host part of a label reads back exactly when the host name is plain |
| QuickSsh.LabelReads | packages/shared-core/src/quick-connect.ts:168-196 | reading a label gives the address back exactly when the host name is plain, for every port and every user and host name without whitespace, slash or at-sign |
| QuickSsh.ReadThenShown | packages/shared-core/src/quick-connect.ts:94-196 | whatever was typed, what is read is a proper address, so the equivalence applies to it |
| QuickSsh.LabelMayNotRead | packages/shared-core/src/quick-connect.ts:54-92 | an input whose label does not read back |
| Framing.EncodeHeader | services/core-framing/src/lib.rs:120-135 | fills the nine header bytes, or refuses lengths over 32 bits |
| Framing.FrameBytes | services/core-framing/src/lib.rs:120-152 | byte by byte: kind, the two lengths most significant byte first, metadata, payload |
| Framing.Writer.WriteFrame | services/core-framing/src/lib.rs:139-152 | appends exactly one encoded frame, or nothing |
| Framing.Reader.ReadFrame | services/core-framing/src/lib.rs:86-118 | takes exactly the first frame off the stream, or fails as specified |
| Framing.WrittenFrameReads | services/core-framing/src/lib.rs:86-152 | a written frame reads back, leaving what follows, if and only if it is within the caps |
| Framing.ReadFrameWasWritten | services/core-framing/src/lib.rs:86-152 | a frame read from any bytes is the frame those bytes encode |
| Framing.NeverMisaligned | services/core-framing/src/lib.rs:86-152 | for any byte string, the frames read until the first error encode exactly the bytes before it |
| Framing.CutStream | services/core-framing/src/lib.rs:86-152 | any cut of a stream of frames yields exactly the frames it contains whole, then the end of the stream |
| Framing.WholeStream | services/core-framing/src/lib.rs:86-152 | uncut, it yields all of them |
| AudioInput.EntryEncodes | services/rdp-core/src/audio_input.rs:82-96 | an entry parsed from the wire encodes back to its own bytes |
| AudioInput.ParseFormats | services/rdp-core/src/audio_input.rs:98-121 | the loop on a shrinking slice parses exactly the complete entries, in order |
| AudioInput.EntriesAreAll | services/rdp-core/src/audio_input.rs:98-121 | the entries are a prefix of the bytes and stop only at the count or where no complete entry starts |
| AudioInput.SizeIsExact | services/rdp-core/src/audio_input.rs:140-194 | the announced size is the number of bytes written; the size and count fields of a list are its size and length below 2^32 and 0 beyond |
| AudioInput.ReplyEchoesEntries | services/rdp-core/src/audio_input.rs:338-372 | the reply offers, byte for byte and in order, the complete plain PCM entries and nothing else |
| AudioInput.PlainMeans | services/rdp-core/src/audio_input.rs:74-80 | which entries those are, by their bytes: 16-bit PCM with at least one channel |
| AudioInput.ReplyIsExact | services/rdp-core/src/audio_input.rs:140-194 | the reply is no longer than the list it answers and its fields are exact |
| AudioInput.Client.Process | services/rdp-core/src/audio_input.rs:317-426 | replies, reported capture, accepted list and flag after each server message |
| AudioInput.OpenReportsOffered | services/rdp-core/src/audio_input.rs:373-400 | in every run an OPEN succeeds exactly for an index into the list last offered; the capture it reports is what the bytes of that entry and of the message say |
| AudioInput.FormatChangeReports | services/rdp-core/src/audio_input.rs:402-417 | in every run a FORMAT_CHANGE reports the entry at its index with no packet size, or nothing for an unknown one, and answers nothing |
| AudioInput.VersionAnswered | services/rdp-core/src/audio_input.rs:323-337 | a VERSION is answered with ours, byte for byte, unless the server's is newer |
| AudioInput.OthersIgnored | services/rdp-core/src/audio_input.rs:317-322 | an empty message is an error, an unknown one is ignored |

## Left out

- Metal, React Native, audio players, sockets, threads as such: I/O. A texture is an array, a stream a byte sequence, a connection a number that is open or closed, a thread a number.
- H.264, ClearCodec and Progressive decoding and the fallback counters of `egfx.rs`: decoded pixels are an arbitrary argument of `OnBitmapUpdated`.
- Mutex poisoning, panics other than the worker's, allocation failure, logging and metrics.
- The VNC FFI, more than one view attached to a session, and generation-counter wrap-around: the generation is an unbounded number.
- Argument checks of `drdp_session_create` and `drdp_session_start` that fail before any shared state is touched.
- Progress: that a bridge, a join or a teardown ends is not claimed, only what holds when it has.
- Bytes copied through a bridge, half-closing, the two-second deadline and the contents of the tunnel's preface: authentication succeeds or fails.
- EgfxSurface.Surface.Copy: the scratch buffer is proved to hold the old rows, not to be reused without growing.
- GroupMutations.MutateGroupPathIn: the hash that names an implicit group is an arbitrary function of the anchor's id and the path; `createGroupIn` is not modelled.
- GroupReorder.Compare: ranks are integers of any size, and a group without an id compares as one with the empty id.
- JsText.Trim: a string is a sequence of UTF-16 code units; no Unicode normalization.
- QuickSsh.ParseInput: `buildQuickSshHostLabel` and the search for an existing host are not modelled.
- Base64.Base64ToBytes: the error text is not modelled, only that there is no result.
- AudioInput.Client.Process: `start`, `close` and the channel number are not modelled; the flag is only ever set.
- EgfxRuns.Step: the renderer's own request for a refresh after it changed size is a command of the run, which may or may not come; a session that cannot resize ends, and is not followed further.
- `checked_rgba_framebuffer_len` is modelled on unbounded numbers, where the overflow checks cannot fail.
- Suggestion scoring, connection stages, vault, crypto and `describeRdpDrives`.
