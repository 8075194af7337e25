# Verification of the evdi painter

This project models, in Dafny, the engine of the evdi kernel module that keeps a user-space client's
copy of a virtual screen in step with the framebuffer, and the small parts around it, and proves what
that engine promises.

How the parts fit together:

- `Wrappers`, `Arithmetic`: optional values, 32-bit wrap-around, and products.
- `Rects`, `DirtyRects`: clip rectangles, their clipping, and the 16-slot list of damage with its
  in-place merging and collapsing.
- `Events`: the pending event list with its squashing of cursor events, its flush into limited space,
  and what a client learns from a stream of events.
- `PainterModel`, `Painter`: the painter's state as a value with one function for each locked section,
  and the painter as the object it is, each method tied to its function.
- `Protocol`, `ProtocolRuns`, `ProtocolLaws`: all locked sections and all operations that work outside the lock as one
  state machine, any interleaving of them, its invariants and what follows for every run.
- `Modeset`, `ModesetRuns`: the atomic callbacks of the primary and the cursor plane, how much of the
  damage they hear of is recorded, and a flip as a run of the protocol.
- `Blend`, `CursorPlane`, `Cursor`: the division-free blend, the cursor's picture and damage, and the
  composition loops over bytes.
- `Memory`, `CopyPixels`, `GrabCopy`, `GrabPixels`: buffers with a stride, the copy of the grabbed
  rectangles, and the whole grab on bytes.
- `VtSwitch`, `VtRecovery`: console switches and the crtc flush step by step: what an interrupted flush
  still reports, when a mode is announced before a second OFF, when the display is turned on again, and how
  an OFF is lost or stays.
- `Mirror`, `CursorGhosts`, `FailedGrabs`: the client's picture and the framebuffer, interleaved pixel by
  pixel, with the invariant that every difference is accounted for; exactly which cursor updates can
  leave a ghost; and what a failed grab leaves for good.
- `BufferList`: the client library's linked list of buffers on the heap.
- `UsbPath`, `UsbAttach`: parsing the path of a USB device and finding the device.
- `Modes`: filtering a connector's modes.

One configuration is fixed: a recent kernel (every branch for 5.10 and later), the copy path without
write-combining, no allocation failures. Calls into the DRM core become parameters or counters: a
framebuffer reference is a count, `drm_event_reserve_init_locked` a check of the bytes left for the
client, the damage iterator a list of clips, a mapping of an object its words or nothing, and user
memory an array whose length decides whether a copy faults.

Where the code does less than a reader may expect, the project shows a concrete case and the exact
condition under which the expectation holds: a merged list that could be merged further
(`MergedNeedNotSettle`, `MergedFixpoint`), a flip to the same framebuffer whose damage is dropped
(`SameBufferFlipDropsDamage`, `FlipRecordsDamageIff`), a display turned off twice with no announcement
between (`LostOffIsReachable`, `OffAnsweredIff`), a flush that falls between an OFF and the modeset it
forces and announces nothing (`FlushInWindowIsSilent`, `WindowIsReachable`, `UnansweredIsOwed`), an OFF
answered by a mode alone, with the display never turned on (`OffThatStaysIsReachable`, `OffTurnsOnIff`), a cursor that stays on the client's screen when it is
hidden or changes shape (`HiddenCursorCanStay`, `ReshapedCursorCanStay`, `GhostIff`), a failed grab that
no later one repairs (`FailedGrabCanLose`, `FailedGrabRepairsIff`), a pitch that is no multiple of four
(`MisalignedPitchMisreads`, `FramebufferIndex`), a framebuffer size that wraps around
(`CreationCheckCanWrap`, `AcceptedIsMappedIff`), a pixel rate that does (`ClosedIff`), and a USB path
deeper than nine ports (`AttachFindsIff`).

Products of two variables are mostly written as repeated addition (`Arithmetic.Times`), with a lemma that
this is the product; the methods compute the product as the C code does.

## Model

| member | source | states |
|---|---|---|
| `Rects.Sanitized` | module/evdi_fb.c:43-87 | The clipped rectangle is well formed, fits the framebuffer, and holds exactly the on-screen pixels between the reported corners, whatever order these came in |
| `Rects.SanitizeRect` | module/evdi_fb.c:43-87 | The step by step swaps and cuts give that rectangle |
| `Rects.Bound` | module/evdi_painter.c:127-133 | Expanding a rectangle gives the least box that holds both |
| `Rects.AreaFitsInt32` | module/evdi_modeset.c:521-522 | With the 7680x4320 cap every area, and every sum of two, fits a signed 32-bit int |
| `DirtyRects.RectArea` | module/evdi_painter.c:135-138 | The int multiplication computes the area and does not overflow |
| `DirtyRects.MergeRowInPlace` | module/evdi_painter.c:145-162 | The inner loop with its restarts ends and leaves in place what `MergeRow` says |
| `DirtyRects.MergeDirtyRects` | module/evdi_painter.c:140-164 | The in-place pass terminates and leaves the list `Merged` of what was there |
| `DirtyRects.MergedSummarises` | module/evdi_painter.c:140-164 | Merging loses no covered pixel, keeps the overall box exactly, keeps every screen bound, and never adds rectangles or total area |
| `DirtyRects.MergeRowSettles` | module/evdi_painter.c:144-163 | A finished row's rectangle can be merged with no later one, and earlier rows were not touched |
| `DirtyRects.MergedNeedNotSettle` | module/evdi_painter.c:140-164 | A finished pass may leave a mergeable pair: a concrete list |
| `DirtyRects.MergedFixpoint` | module/evdi_painter.c:140-164 | A pass changes nothing, or shortens nothing, exactly when every pair is already unmergeable |
| `DirtyRects.Box` | module/evdi_painter.c:166-176 | The collapsed rectangle is the least box that encloses every entry |
| `DirtyRects.CollapsedSummarises` | module/evdi_painter.c:166-176 | Collapsing covers all it covered, with the same overall box |
| `DirtyRects.CollapseDirtyRects` | module/evdi_painter.c:166-176 | The loop leaves one rectangle, that box |
| `DirtyRects.MarkedCovers` | module/evdi_painter.c:670-684 | Recording never overflows the 16 slots, covers the old damage and the new rectangle, and grows the overall box by no more than that rectangle |
| `DirtyRects.MarkedSpares` | module/evdi_painter.c:670-684 | A list with a free slot keeps its entries, a full one in which something can be merged takes no more area, and only a full one in which nothing can is collapsed |
| `DirtyRects.TakenCovers` | module/evdi_painter.c:1097-1105 | What a grab takes covers everything recorded, keeps its box, and has at most the client's number of rectangles |
| `DirtyRects.TakenSpares` | module/evdi_painter.c:1097-1105 | A grab always merges what can be merged, and collapses only what merging leaves too long for the client |
| `Events.LengthIsLayout` | module/evdi_drm.h:29-118 | The size of each event is its header and its padded fields |
| `Events.FlushCount` | module/evdi_painter.c:348-376 | What a flush hands over is a prefix that fits the client's space |
| `Events.FlushTakesLongestPrefix` | module/evdi_painter.c:348-376 | It is the longest such prefix: a prefix fits exactly when it is no longer |
| `Events.FlushDelivers` | module/evdi_painter.c:348-376 | A flush moves pending events to the client in order, accounts for the space they take, and ends only when none is left or the next does not fit |
| `Events.SendDelivers` | module/evdi_painter.c:378-412 | An event with room and nothing before it is delivered at once; while the retry is scheduled it waits |
| `Events.EnqueueSquashesIff` | module/evdi_painter.c:321-346 | Exactly a cursor shape after a shape, and a move after a move, replaces the last pending event; every other event joins the list |
| `Events.EnqueuePreservesMeaning` | module/evdi_painter.c:321-346 | Squashing preserves what a client learns: delivered and pending events still replay like everything accepted |
| `Events.EnqueueKeepsNoTwins` | module/evdi_painter.c:321-346 | No two neighbours in the pending list are both cursor shapes or both cursor moves |
| `Events.LogIsNonCursor` | module/evdi_painter.c:315-346 | A client's replay logs exactly the events that are not cursor events, in order |
| `Events.SameReplaySameEvents` | module/evdi_painter.c:315-346 | Streams that replay alike carry the same other events in the same order |
| `Painter.Painter.constructor` | module/evdi_painter.c:1317-1341 | A new painter is disconnected, owes a full modeset, and has nothing recorded or pending |
| `Painter.Painter.AddEventToPendingList` | module/evdi_painter.c:321-346 | The last pending event is replaced when it is squashable and of the same type; otherwise the event is appended |
| `Painter.Painter.FlushPendingEvents` | module/evdi_painter.c:348-376 | The loop delivers the longest prefix that fits, in order: delivered and pending events stay the same stream, space is accounted for, and the next event, if any, does not fit |
| `Painter.Painter.SendEvent` | module/evdi_painter.c:378-412 | Without a client nothing changes; with the retry scheduled the event only joins the list; otherwise all that fits is delivered, this event too if it has room and nothing is before it, and the retry scheduled for the rest |
| `Painter.Painter.SendEventsWork` | module/evdi_painter.c:1223-1232 | The retry flushes again, delivers the first event if it fits, and stays scheduled while anything is left |
| `Painter.Painter.EventsCleanup` | module/evdi_painter.c:839-852 | The list is emptied and the retry cancelled |
| `Painter.Painter.SendVblank` | module/evdi_painter.c:702-710 | The held vblank is completed on its crtc and no longer held |
| `Painter.Painter.SetVblank` | module/evdi_painter.c:712-735 | A held vblank is completed first; the new one is held, not completed, exactly when connected with damage to grab |
| `Painter.Painter.MarkDirty` | module/evdi_painter.c:649-688 | The array holds the clipped rectangle after the old list, merged and collapsed if it was full |
| `Painter.Painter.TakeSnapshot` | module/evdi_painter.c:1070-1126 | The locked part of a grab: EINVAL for a bad count, EAGAIN without a scanout; otherwise the merged or collapsed list and the vblank are taken and neither is left |
| `Painter.Painter.RequestUpdate` | module/evdi_painter.c:1193-1221 | An outstanding request makes the new one ignored; with damage it is answered 1; else it becomes outstanding |
| `Painter.Painter.SendUpdateReadyIfNeeded` | module/evdi_painter.c:737-755 | An outstanding request with damage gets UPDATE_READY and is no longer outstanding |
| `Painter.Painter.DpmsNotify` | module/evdi_painter.c:759-789 | When connected, ON records the foreground console, and the event is sent |
| `Painter.Painter.ModeChangedNotify` | module/evdi_painter.c:804-837 | With a scanout buffer the mode is announced with its format and no modeset is owed any more |
| `Painter.Painter.VtNotifierCall` | module/evdi_painter.c:1235-1247 | A console switch away, with no modeset owed, turns the display off and owes a full modeset |
| `Painter.Painter.CrtcAtomicFlush` | module/evdi_modeset.c:66-95 | The end of a commit: notifications decided before any is sent, then the vblank, then the update request |
| `Painter.Painter.Connect` | module/evdi_painter.c:906-964 | A connect checks the EDID length, replaces the client and keeps the pending list |
| `Painter.Painter.Disconnect` | module/evdi_painter.c:966-1014 | Only the connected client's file disconnects; the scanout is dropped, vblank completed, queue emptied and request cancelled |
| `Painter.Painter.Cleanup` | module/evdi_painter.c:1343-1370 | Cleanup drops the scanout, completes the vblank and empties the queue |
| `PainterModel.SnapshotTakesAll` | module/evdi_painter.c:1084-1126 | When a grab is turned down and how, and that otherwise it takes all that is recorded and the held vblank and leaves neither |
| `PainterModel.VblankHeldIff` | module/evdi_painter.c:712-735 | A vblank is held exactly for a connected client with damage, and then only the previous one completed |
| `PainterModel.DpmsTells` | module/evdi_painter.c:759-789 | DPMS is sent to whoever is connected; only ON records the console |
| `PainterModel.ModeTold` | module/evdi_painter.c:804-837 | The client is told the new mode, 32 bits a pixel, with the scanout's format |
| `PainterModel.ConnectOwes` | module/evdi_painter.c:906-964 | An EDID of 1 to 256 blocks' length connects, keeps the pending list, and owes the new client a full modeset |
| `PainterModel.DisconnectIsOwners` | module/evdi_painter.c:966-1014 | Only the connected client's file disconnects; scanout, request, queue and vblank go, recorded damage stays |
| `Protocol.CallKeepsDirts` | module/evdi_painter.c:649-688 | No locked call but a grab's empties the list, and all keep it within its 16 slots and the screen cap |
| `Protocol.StepKeepsDirtsSafe` | module/evdi_painter.c:1097-1115 | Every step keeps the list and every snapshot in flight within 16 well-formed rectangles inside the screen cap |
| `Protocol.StepKeepsRef` | module/evdi_painter.c:1372-1389 | Every step keeps the reference count of a framebuffer equal to one if it is the scanout plus one for each operation in flight that holds it |
| `Protocol.HeldIsReferenced` | module/evdi_painter.c:1107-1126 | Whatever an operation in flight holds is referenced |
| `Protocol.StepKeepsVblank` | module/evdi_painter.c:690-735 | Every step conserves vblank events: submitted equals completed plus held plus in flight |
| `Protocol.StepKeepsHeldForDamage` | module/evdi_painter.c:720-735 | Every step keeps it so that a held vblank means a connected painter with damage to grab |
| `Protocol.StepKeepsServed` | module/evdi_painter.c:378-412 | Every step keeps the queue sound: pending events have their retry scheduled, a scheduled retry has a client, no neighbours could be squashed, and the stream keeps its meaning |
| `Protocol.StepKeepsHandshake` | module/evdi_painter.c:1193-1221 | Every step keeps each request ignored, answered, readied, cancelled or outstanding, exactly one of these; outstanding with damage means a mark since the last flush |
| `ProtocolRuns.CopiedIsNeverReleased` | module/evdi_painter.c:1117-1186 | In every reachable state a framebuffer being copied is referenced |
| `ProtocolRuns.VblankCompletedOnce` | module/evdi_painter.c:690-735 | A vblank submitted once is completed at most once; if it is not, the painter holds it with damage to grab or one grab in flight has it |
| `ProtocolRuns.NothingLeaks` | module/evdi_painter.c:1343-1370 | After cleanup, with nothing in flight, all references are put and all vblanks completed |
| `ProtocolRuns.StreamKeepsMeaning` | module/evdi_painter.c:315-412 | In every run, delivered and pending events replay like all accepted since the connect and carry the same other events in order; pending ones have a retry scheduled and a client to go to |
| `ProtocolRuns.DamageWaits` | module/evdi_painter.c:649-688 | Through any run without a grab, recorded damage stays |
| `ProtocolRuns.PromisedGrabReports` | module/evdi_painter.c:1193-1221 | After any step that answers a request with 1 or sends UPDATE_READY, the last step of a flush included, and through any run without a grab, the next grab that succeeds reports at least one rectangle and no more than asked for |
| `ProtocolRuns.RunKeepsInvariant` | module/evdi_painter.c:966-1014 | All of these conservation, safety, queue and handshake invariants hold in every state of every run, whatever the interleaving, the unlocked steps of flushes and of the console notifier included |
| `ProtocolLaws.GrabIsRun` | module/evdi_painter.c:1084-1191 | An uninterrupted grab ends with the list empty, the held vblank completed, and no operation or reference more than before |
| `ProtocolLaws.CleanUpIsTheEnd` | module/evdi_painter.c:1343-1370 | After cleanup, through any run, no operation begins and the painter only completes vblanks that grabs still have |
| `ProtocolLaws.GrabLeavesNothing` | module/evdi_painter.c:1115 | After a grab of a painter with a scanout, through any run without a mark, a request is not answered but becomes outstanding or is ignored, and another grab reports nothing |
| `ProtocolLaws.RetryDelivers` | module/evdi_painter.c:1223-1232 | The retry delivers the first pending event if it fits, and all of them if they do |
| `ProtocolLaws.ReadingDrains` | module/evdi_painter.c:348-376 | In every run, once the client has read enough, the retry hands over all that is pending |
| `ProtocolLaws.StepCompletes` | module/evdi_painter.c:690-735 | Exactly which vblanks each step completes: a grab's completion its own, disconnect and cleanup the held one, a submission the held one and, without client or damage, its own; every other step none |
| `ProtocolLaws.VblankWaits` | module/evdi_painter.c:712-735 | A vblank submitted with damage to a connected client waits, held or in its grab, through any run until one of those steps completes it |
| `VtSwitch.OffAnsweredIff` | module/evdi_painter.c:1235-1247 | When the notifier sends OFF: in every continuation the next mark is no second OFF (a mode is announced or the session ends first) exactly when no flush stands between announcing a mode and clearing the flag |
| `VtSwitch.OffCanBeLost` | module/evdi_painter.c:832-836 | From any resting state, one change of mode and two console switches can give two OFFs with no announcement between them, because the flag is cleared after the announcement and without the lock |
| `VtSwitch.LostOffIsReachable` | module/evdi_painter.c:832-836 | A run from the start ends so |
| `VtSwitch.OwedFlushIsSafe` | module/evdi_modeset.c:80-90 | In every run, a flush that began with a modeset owed and the notifier at rest is never caught between announcing and clearing |
| `VtSwitch.FlushesReport` | module/evdi_modeset.c:66-95 | In every run, however its flushes are interrupted: each finished flush has posted the mode it decided to announce, then the DPMS state, unless it found no scanout or no client; an active one that began with a modeset owed decides to do both |
| `VtSwitch.FlushIsRun` | module/evdi_modeset.c:66-95 | The steps of a flush, uninterrupted, do what `CrtcFlush` says |
| `VtSwitch.NotifierIsRun` | module/evdi_painter.c:1235-1247 | The console notifier's guard and its two unlocked steps, uninterrupted, do what `VtNotify` says: on a switch away with no modeset owed the display is turned off, then a full modeset owed |
| `VtSwitch.ActiveFlushAccepts` | module/evdi_modeset.c:66-95 | What an active uninterrupted flush with a scanout tells the client: the mode exactly when it changed or a modeset is owed, then DPMS ON exactly when it became active or one is owed, then that there is something to grab; an owed one records the console and is owed no more |
| `VtSwitch.InactiveFlushAccepts` | module/evdi_modeset.c:83-94 | An inactive flush tells DPMS OFF exactly when it became inactive or a modeset is owed, which stays owed, and then that there is something to grab |
| `VtSwitch.FlushRecovers` | module/evdi_modeset.c:83-94 | While a modeset is owed, an active uninterrupted flush with a scanout sends MODE_CHANGED then DPMS ON, and quiets the console notifier |
| `VtSwitch.UnowedFlushIsSilent` | module/evdi_modeset.c:83-94 | With nothing owed or changed a flush announces nothing |
| `VtSwitch.SilentUntilSwitch` | module/evdi_painter.c:1235-1247 | With the painter on the foreground console and the notifier not about to send, there is no OFF through any run until the console is switched, forced and finished modesets included |
| `VtSwitch.UnansweredIsOwed` | module/evdi_painter.c:1235-1247 | After an OFF with no flush caught before its clear, through any run as long as no mode was announced since, the notifier has still to force the modeset, or a modeset is owed and the notifier silent; an active flush that starts then announces its mode exactly when that changed or the modeset is already owed, always once the notifier is done, and uninterrupted and with a scanout sends DPMS ON after an owed one |
| `VtSwitch.FlushInWindowIsSilent` | module/evdi_painter.c:1242-1243 | A flush that starts between the OFF and the forced modeset and changes nothing announces nothing, so the first active flush after an OFF need not answer it |
| `VtSwitch.WindowIsReachable` | module/evdi_painter.c:1242-1243 | A run from the start leads to where such a flush can start |
| `VtRecovery.VtSwitchRecovers` | module/evdi_painter.c:1235-1247 | In every run: once an OFF was sent and the modeset forced with no flush about to clear it that decided not to notify, then in that session, through any run until some flush has posted its mode and then DPMS ON: whenever no commit is under way the modeset is owed and the notifier silent, and the next active flush decides to announce, and uninterrupted with a scanout sends the mode, then DPMS ON, and leaves the notifier silent |
| `VtRecovery.OffTurnsOnIff` | module/evdi_modeset.c:80-90 | In every run, after an OFF, when the modeset is forced: in every continuation of the session DPMS ON was sent by the time nothing is owed and no commit under way, exactly when no flush that decided not to notify stands between that decision and its clear |
| `VtRecovery.DroppingChangesModeOnly` | module/evdi_modeset.c:80-81 | In every run such a flush is active, changes its mode and not its activity, and began with nothing owed |
| `VtRecovery.ClearingPostedMode` | module/evdi_painter.c:826-836 | In every run a flush about to clear the flag has posted its mode |
| `VtRecovery.OffCanStay` | module/evdi_modeset.c:80-90 | From any resting state a change of mode alone and one console switch can end with OFF, then the mode, no DPMS ON, nothing owed and nothing under way, because whether to notify is decided before the modeset is forced and the flag cleared after |
| `VtRecovery.OffThatStaysIsReachable` | module/evdi_modeset.c:80-90 | A run from the start ends so |
| `Modeset.PlaneAtomicUpdate` | module/evdi_modeset.c:220-307 | The callback does to the painter what `PlaneUpdate` says, clip by clip |
| `Modeset.PlaneUpdateKeepsScanout` | module/evdi_modeset.c:281-305 | After a flip the plane's framebuffer is the scanout or the client is gone, and with a scanout there is always damage to grab |
| `Modeset.FlipInstallsIff` | module/evdi_modeset.c:269-305 | The scanout after a flip is its framebuffer exactly when that is new, a full modeset is owed or called for, or it was the scanout; in the first two cases all its damage is recorded; and a modeset it calls for stays owed |
| `Modeset.FlipTellsDpms` | module/evdi_modeset.c:258-261 | A plane that gets its first crtc tells the client DPMS ON, one that loses it OFF, and nothing else |
| `Modeset.FlipRecordsDamageIff` | module/evdi_modeset.c:281-305 | A flip records all of its damage exactly when it installs its framebuffer, finds the list empty, or had it recorded already |
| `Modeset.SameBufferFlipDropsDamage` | module/evdi_modeset.c:281-305 | A flip to the same framebuffer while other damage is pending drops its damage: a concrete state |
| `Modeset.UpdateCursor` | module/evdi_modeset.c:340-367 | The cursor object moves always, and takes the new image with its size, format, bytes a pixel and stride, and is enabled or disabled, when the framebuffer changed; an unscaled image that can be mapped is then what the pixel by pixel model draws |
| `Modeset.CursorAtomicUpdate` | module/evdi_modeset.c:318-390 | Without cursor events two rectangles or the whole screen are marked, and nothing on hiding; with them a shape, enabled exactly if its image is mapped and has a handle, and a move event are sent when they changed |
| `Modeset.NewsTells` | module/evdi_modeset.c:383-390 | News is the shape event, then the move event |
| `Modeset.CursorDamageIsReports` | module/evdi_modeset.c:368-381 | The list after an update is the old one with the reports of the pixel by pixel model marked on it, clipped, in their order |
| `Modeset.CursorUpdateRecordsIff` | module/evdi_modeset.c:368-381 | Every on-screen pixel the cursor leaves or enters is recorded exactly when the update does not hide it, or those it leaves were recorded already |
| `ModesetRuns.FlipIsRun` | module/evdi_modeset.c:220-307 | A flip is a run of the protocol: its locked sections in order, so every invariant of runs holds through it |
| `ModesetRuns.FlipAfterConnect` | module/evdi_modeset.c:280-305 | After a client connects, an uninterrupted flip, even of the plane's old framebuffer, leaves it as scanout with all its damage recorded and something to grab |
| `ModesetRuns.ShownUnlessDropped` | module/evdi_painter.c:1372-1389 | Through any run that exchanges no framebuffer the scanout stays exactly until cleanup or its client's disconnect drops it |
| `ModesetRuns.InterruptedMarkIff` | module/evdi_modeset.c:281-305 | After the exchange of a flip, and whatever comes between, a clip it then marks is recorded exactly when the scanout was not dropped meanwhile, or all of the clip was recorded already |
| `Blend.ShiftDownDividesBy255` | module/evdi_cursor.c:155-162 | Adding the shifted copy and dropping 16 bits divides by 255 exactly, with no 32-bit wrap |
| `Blend.BlendComponentExact` | module/evdi_cursor.c:155-162 | For bytes the blend is the floor of the weighted mean, lies between its inputs, is the pixel at alpha 0 and the cursor at alpha 255 |
| `Blend.BlendComponentIsMean` | module/evdi_cursor.c:155-162 | The same with products: floor((pixel*(255-alpha)+blend*alpha)/255) |
| `Blend.PackUnpacks` | module/evdi_cursor.c:164-175 | The three packed channels never overlap and unpack to what was packed; the top byte is zero |
| `Blend.BlendAlphaExact` | module/evdi_cursor.c:164-175 | Masks, shifts and ors blend each channel on its own |
| `Blend.BlendAlphaIsBlendWord` | module/evdi_cursor.c:164-175 | On the four bytes of a word they are three channel blends and a zero |
| `Blend.BlendWordExtremes` | module/evdi_cursor.c:164-175 | A transparent cursor pixel leaves the three channels, an opaque one replaces them |
| `Memory.CreationCheckMaps` | module/evdi_fb.c:651-659 | The size check at creation puts every row inside the object when the size does not wrap around |
| `Memory.AcceptedIsMappedIff` | module/evdi_fb.c:651-659 | For an accepted object below 4 GiB, all rows are inside exactly when the size does not wrap around |
| `Memory.CreationCheckCanWrap` | module/evdi_fb.c:651-659 | A size that fits 32 bits and wraps when it is aligned to pages passes the check against an empty object: a concrete layout |
| `CursorPlane.TruncatedKeepsLowBits` | module/evdi_modeset.c:309-316 | Storing a coordinate in an unsigned short keeps its low 16 bits |
| `CursorPlane.CursorRectCovers` | module/evdi_modeset.c:309-316 | The rectangle built for a cursor, truncated to unsigned shorts and clipped, holds every on-screen pixel of the cursor |
| `Cursor.EvdiCursor.Set` | module/evdi_cursor.c:118-145 | A cursor that cannot be mapped becomes none; position is kept |
| `Cursor.EvdiCursor.Enable` | module/evdi_cursor.c:109-116 | Disabling drops the image |
| `Cursor.EvdiCursor.Move` | module/evdi_cursor.c:147-153 | Only the position changes |
| `Cursor.SizeCheckCovers` | module/evdi_cursor.c:210-215 | The size check is not fooled by 32-bit wrap-around: every index read lies in the cursor's image |
| `CopyPixels.CopyRect` | module/evdi_painter.c:229-256 | The row loop copies exactly the rows of one rectangle; a failing one some of them |
| `CopyPixels.CopyPrimaryPixels` | module/evdi_painter.c:211-260 | On success the four bytes of each pixel of the rectangles are those in the framebuffer's object and every other byte, padding included, is as it was, whatever their order and overlap; a failing copy leaves only some of them copied; it fails on a rectangle beyond the dimensions |
| `Cursor.EvdiCursor.RejectedIff` | module/evdi_cursor.c:200-215 | An enabled cursor is turned down exactly when its image is not mapped, has not four bytes a pixel, or is smaller than its rows |
| `Cursor.EvdiCursor.ComposeAndCopy` | module/evdi_cursor.c:187-260 | For any pitch: the bytes at each on-screen pixel of the even-sized part of the cursor become the blend of the framebuffer's word read for it and word j*width+i of the image, and no other byte changes; after a fault some of them; rejected cursors draw nothing |
| `Cursor.EvdiCursor.ComposeRow` | module/evdi_cursor.c:228-256 | One row of the double loop, or its beginning up to a fault |
| `Cursor.FramebufferIndex` | module/evdi_cursor.c:239-243 | The framebuffer word read lies in the object, and is the pixel there exactly when the pitch is a multiple of four or in the first row |
| `Cursor.MisalignedPitchMisreads` | module/evdi_cursor.c:239-243 | A wrong pixel drawn with another pitch: a concrete layout |
| `GrabCopy.CopyGrabbed` | module/evdi_painter.c:1162-1176 | After a grab's copy each pixel under a cursor that is drawn is the blend, byte by byte, each other pixel of the snapshot the framebuffer's bytes, every other pixel untouched; with a rejected cursor it is a grab without one; a failing copy leaves some bytes of the rectangles copied |
| `DirtyRects.TakenFitsIff` | module/evdi_painter.c:238-242 | What a grab takes fits a screen exactly when everything recorded does |
| `GrabPixels.GrabPixIoctl` | module/evdi_painter.c:1055-1191 | The whole ioctl: each error in its order and what it leaves, EFAULT exactly when a recorded rectangle exceeds the framebuffer and all else is in order, how many rectangles the client is told of and those it was given, no damage left, the vblank completed whether or not the copy worked, and the bytes copied and blended |
| `GrabPixels.MirrorIsPainter` | module/evdi_painter.c:1097-1126 | Marks and snapshots of the pixel by pixel model do to the list what the painter's locked sections do |
| `GrabPixels.GrabMakesIdeal` | module/evdi_painter.c:1084-1186 | End to end: with everything reported, an uninterrupted grab leaves in the client's bytes the ideal picture, pixel by pixel |
| `Mirror.StepKeepsMirrored` | module/evdi_modeset.c:318-381 | Every step of writes, marks, cursor updates in their two steps and a grab, interleaved pixel by pixel, keeps it so that wherever the client differs from the ideal picture the pixel is recorded, owed, not yet reported, smudged by a grab in the middle of an update, lost, or in flight |
| `Mirror.RunKeepsMirrored` | module/evdi_painter.c:1084-1186 | The mirror invariant holds over every run |
| `Mirror.StartIsMirrored` | module/evdi_painter.c:649-688 | It holds at first, whatever the client's buffer contains, if the whole screen is to be reported |
| `Mirror.GrabSynchronises` | module/evdi_painter.c:1084-1186 | Once everything is reported, a grab that completes with no write in between leaves client and ideal picture equal everywhere |
| `Mirror.ReportsCover` | module/evdi_modeset.c:368-381 | An update that shows a cursor reports every pixel the plane's cursor leaves or enters |
| `Mirror.ApplyLosesNothingIff` | module/evdi_modeset.c:346-381 | An update loses no damage exactly when it leaves a cursor or had none on the screen, and all that a grab smudged in the middle of it is reported |
| `Mirror.MovingIsHarmless` | module/evdi_modeset.c:346-381 | A cursor that keeps its shape may be moved at any time |
| `Mirror.NoGhost` | module/evdi_modeset.c:318-381 | However the cursor moved and changed, if no update lost damage and no grab failed, a completed grab shows it at its present position and nowhere else |
| `Mirror.MovingIsCalm` | module/evdi_modeset.c:346-381 | A run of any actions in which every cursor update keeps the shown shape and no grab fails loses no damage |
| `Mirror.MovingLeavesNoGhost` | module/evdi_modeset.c:318-381 | However often a cursor is moved in such a run, a completed grab after all reports shows it at its present position and nowhere else |
| `CursorGhosts.GhostIff` | module/evdi_modeset.c:346-381 | Over all images and interleavings, an update leaves no wrong pixel that nobody will report exactly when it shows a cursor or had none on the screen, and every on-screen pixel of the old shape at the new place lies in the rectangles it reports |
| `CursorGhosts.HidingLeavesSyncIff` | module/evdi_modeset.c:346-369 | Hiding, uninterrupted, leaves an up-to-date client so exactly when the cursor changed no pixel it was drawn on |
| `CursorGhosts.HiddenCursorCanStay` | module/evdi_modeset.c:364-369 | A hidden arrow that stays on the client's screen |
| `CursorGhosts.ReshapedCursorCanStay` | module/evdi_modeset.c:346-362 | A large arrow that becomes a small one further right and leaves a piece of itself there |
| `FailedGrabs.SparedPixelStays` | module/evdi_painter.c:1097-1115 | Through any run whose reports stay in a box, a pixel outside it that is neither written nor under the cursor keeps its value, however many grabs merge and collapse |
| `FailedGrabs.FailedGrabLoses` | module/evdi_painter.c:1115-1181 | After a grab that fails part of the way, and through any such run, a pixel is the framebuffer's if it had been copied and what it was before if not |
| `FailedGrabs.FailedGrabRepairsIff` | module/evdi_painter.c:1115-1181 | With nothing reported later, whatever grabs follow, the client shows the framebuffer exactly when it already did at every pixel not copied |
| `FailedGrabs.FailedGrabCanLose` | module/evdi_painter.c:1115-1139 | A client that stays black: the grab fails, the next one succeeds and does not repair it |
| `BufferList.Handle.FindBuffer` | library/evdi_lib.c:115-129 | The node of the first buffer with that id, or null when there is none |
| `BufferList.Handle.AddFrameBuffer` | library/evdi_lib.c:131-145 | The buffer is appended; the chain stays acyclic and its other nodes the same |
| `BufferList.Handle.RemoveFrameBuffer` | library/evdi_lib.c:152-172 | Removal through the link that leads to each node leaves the list filtered in order, or empty for no id |
| `BufferList.Handle.RegisterBuffer` | library/evdi_lib.c:778-784 | A free id is appended; an id in use fails the assertion |
| `BufferList.Handle.UnregisterBuffer` | library/evdi_lib.c:786-796 | An id in use is removed; a free one fails the assertion |
| `BufferList.ListIsTable` | library/evdi_lib.c:778-796 | Over any history the assertions hold exactly when it registers free ids and unregisters used ones, and then ids are unique and a lookup finds exactly what a table keyed by id would |
| `UsbPath.SpacesAre` | module/evdi_sysfs.c:80 | The white space that is trimmed: the kernel's seven space characters |
| `UsbPath.UIntReadsIff` | module/evdi_sysfs.c:95-104 | Exactly digits below 2^32, after an optional plus and before an optional newline, are read, as their value |
| `UsbPath.IntKeepsBits` | module/evdi_sysfs.c:95-104 | The number stored is the int with the same 32 bits |
| `UsbPath.AddressIff` | module/evdi_sysfs.c:94-106 | Exactly a number, a dash, and numbers between dots make an address, looking at no more than nine |
| `UsbPath.ParseIs` | module/evdi_sysfs.c:75-91 | The address parsed is what stands between the first "usb:" and the next colon or the white space at the end |
| `UsbPath.Strsep` | module/evdi_sysfs.c:81-98 | The token before the first delimiter, and the cursor after it |
| `UsbPath.KStrToUInt` | module/evdi_sysfs.c:95-104 | Base 10, an optional plus and final newline, no overflow of 32 bits, nothing else |
| `UsbPath.ParsePorts` | module/evdi_sysfs.c:98-105 | The do-while loop fills the array with the ports, at most nine, and fails on a bad one |
| `UsbPath.ParseUsbPath` | module/evdi_sysfs.c:58-106 | The string cursors parse exactly the grammar `Parse` |
| `UsbAttach.PathIsBusAndPorts` | module/evdi_sysfs.c:127-152 | A device's path is the bus number of its root hub and then the port of each device below |
| `UsbAttach.FindUsbDeviceAtPath` | module/evdi_sysfs.c:127-152 | The upward walk accepts a device exactly when its path from the root is the address |
| `UsbAttach.PathsDistinct` | module/evdi_sysfs.c:127-152 | With distinct buses and sibling ports a path names one device |
| `UsbAttach.ParseReads` | module/evdi_sysfs.c:58-106 | Round trip: parsing the text form of a path, with white space or a colon and anything after it, gives the path back, up to ten numbers |
| `UsbAttach.AddDeviceWithUsbPath` | module/evdi_sysfs.c:58-125 | What is found lies at the parsed address; nothing is found only if nothing lies there |
| `UsbAttach.AttachFindsIff` | module/evdi_sysfs.c:58-152 | Attaching to a device's text form finds that device and no other exactly when its path has at most nine ports; a deeper one is taken for its ancestor |
| `Modes.IsLowestFrequencyModeOfGivenResolution` | module/evdi_connector.c:65-78 | True exactly when no mode of that resolution has a lower refresh rate |
| `Modes.ClosedIff` | module/evdi_connector.c:80-125 | For any limits, resolution and rate: for all lists up to it, accepting a mode means accepting every slower one exactly when nothing is limited, the area is too big, or the 32-bit pixel rates within the limit come before those beyond it |
| `Modes.ClosedIffNoWrap` | module/evdi_connector.c:80-125 | In particular, for a resolution that fits both limits with room for one more area below 2^32, exactly when the pixel rate does not wrap around |
| `Modes.ModeValid` | module/evdi_connector.c:80-125 | Accepted exactly as the limits say, in 32-bit arithmetic |
| `Modes.ResolutionKeptIff` | module/evdi_connector.c:80-125 | A listed resolution keeps an accepted mode exactly when its area is within the limit or nothing is limited, even if its rate wraps around |

## Left out

- The DRM core, atomic helpers, damage iterator, dma-buf and vmap code: outside the repository; a framebuffer is an array of bytes, get and put are counters.
- The xe copy path, cache flushing, fbdev emulation, encoder, sysfs attributes, debugfs timing, logging, module parameters: hardware plumbing without an invariant.
- EDID contents, the i2c adapter and the DDC/CI exchange: field copying, and a timeout race. Its event is one of the events of the queue.
- Checks for a missing painter or device, and the unknown grab mode: early exits that change nothing.
- Reference counts of GEM objects, device slots, 32-bit compat ioctls, open and wait loops of the library: they would only add easy members.
- The order of vblank completions, and the pixels of a grab during which the scanout is flipped to another framebuffer: the code gives no guarantee there. References and vblanks are covered through them.
- Mirror.StepKeepsMirrored: one scanout buffer and one client buffer throughout, cursors are not scaled, and whether updates report rectangles or the whole screen does not change in a run.
- Mirror.NoGhost: asks that no grab fails and no update loses damage, which moving never does (`Mirror.MovingIsCalm`); `CursorGhosts.GhostIff` and `FailedGrabs.FailedGrabRepairsIff` say exactly when that matters.
- CursorGhosts.GhostIff: one update at a time; commits do not overlap.
- FailedGrabs.FailedGrabRepairsIff: pixels under the cursor are left aside; with a software cursor every later grab draws those anew.
- GrabPixels.GrabMakesIdeal: the bytes of a grab that nothing interrupts, with a pitch of whole words; interruptions are in `Mirror` only, pixel by pixel.
- Memory.CopyToUser: fails before writing anything when its range leaves the buffer; a fault part of the way through one row is not modelled.
- CopyPixels.CopyPrimaryPixels: says which bytes are copied only for strides of at least 4 bytes a pixel; offsets are unbounded integers, so a 32-bit wrap of `stride * row` is not modelled.
- CopyPixels.CopyRect: the same as for `CopyPrimaryPixels`.
- Cursor.EvdiCursor.ComposeAndCopy: the sum of position and size does not overflow an int, and the stride is as for `CopyPrimaryPixels`.
- CursorPlane.CursorRectCovers: sizes are within the screen cap and the sum of position and size does not overflow an int.
- Modeset.PlaneAtomicUpdate: clips come as a list of rectangles already cut to unsigned shorts; its locked sections run uninterrupted here.
- ModesetRuns.FlipIsRun: equates an uninterrupted flip with `PlaneUpdate`; of an interrupted one, `InterruptedMarkIff` says which of its clips are recorded, and the invariants of every run hold.
- Painter.Painter.SendEvent: an event allocation that fails, which sends nothing, is not modelled; one event is enqueued and flushed in one step, as in the event worker and in disconnecting.
- Painter.Painter.Connect: the client's queue starts empty with a given space; the EDID itself, a failure to copy it, and the limits that come with it are not part of the state.
- Painter.Painter.Disconnect: disabling the cursor, turning cursor events off and dropping DDC/CI data belong to objects that are not part of the painter's state.
- VtSwitch.OffAnsweredIff: here and in `VtRecovery` the commits of the one crtc do not overlap, and neither do two calls of the console notifier, which are made under the console lock; single reads and writes of the flag are atomic.
- Protocol.StepKeepsRef: the code releases the scanout in cleanup and the operations in flight go on after it; a new operation cannot start then.
- UsbPath.ParseUsbPath: the text has no NUL inside and is as long as the count says.
- BufferList.Handle.RegisterBuffer: a failed assertion is an answer of false that changes nothing, not an abort.
- Modes.ClosedIffNoWrap: leaves out rate limits within one area of 2^32 and areas above the rate limit; `Modes.ClosedIff` covers them.
