# Astrofin: a verified model

Astrofin is a desktop media client. Most of it connects a browser engine, a
graphics device and a web page; inside it are several state machines, parsers
and concurrent protocols that decide what reaches the screen, the disk and the
network. This project models those and proves what they promise, over every
input, every run and every interleaving.

| file | what it models |
|---|---|
| `Frames.dfy`, `Surface.dfy` | dirty-rectangle upload into a persistent texture, and one window's surface around it: lazy reconfigure, bounded acquire loop, the two frame kinds |
| `SubmitGate.dfy` | any number of surfaces on one device, interleaved around a read/write gate |
| `SaveWorker.dfy` | the background settings writer: savers, a one-slot mailbox, a lazily spawned worker, a draining shutdown |
| `DeviceName.dfy`, `Settings.dfy` | the device-name normaliser with its UTF-8 cut, and the settings document laid over the defaults and written back |
| `Scroll.dfy` | the coalescing scroll accumulator |
| `Framing.dfy`, `AcceptLoop.dfy` | newline-delimited frames read from arbitrary chunks; bind, probe and accept with a connection cap |
| `Text.dfy`, `Origin.dfy` | http(s) origins (section 3.2 of RFC 3986, sections 4 and 5 of RFC 6454), server bases, redirects, typed addresses |
| `FocusHistory.dfy` | the browser layers and the stack of who had the focus |
| `Backdrop.dfy` | the art behind the cards: asynchronous fetches, image loads and two cross-fading layers |
| `CodecList.dfy` | the reorderable codec list |
| `Color.dfy`, `Theme.dfy` | the colour printer and its parsers; the theme-colour tracker |
| `Transcode.dfy`, `Playback.dfy` | whether a transcoder keeps up; polls, timers and the one notice of a playback session |

Objects whose methods update their fields are classes, and each method is tied
to a function of the old state. Concurrent code is a step system: a run is a
sequence of events, everything a scheduler, a peer or the window system may
choose is part of an event, and a lemma over all runs is a lemma over all
interleavings. Several results compare the state with a second reading of the
same run that uses the event log alone (`Bound`, `LastActivation`,
`LastAsked`, `LastExtent`, `OfferedWhileOpen`, `LastPlay`, `WantedColor`).

What turned out differently from what comments in the code say, with the exact
condition proved:

* A frame smaller than its predecessor leaves stale texels behind when the
  target keeps its size, although the comment on the reconfigure promises a
  transparent remainder. It is right when no frame leaves residue, and only
  then (`RunAgreesIff`; two presents that go wrong in `StaleTexelOnWindow`).
* A shutdown of the settings writer before the first save closes nothing, so a
  later save is still accepted (`EarlyShutdownClosesNothing`,
  `InitialisedShutdownStops`).
* The device-name cut may fall right after a space, so normalising is not
  idempotent (`NormalizedTwiceIff`, and a name for which it fails in
  `NotIdempotent`).
* A precise scroll remainder of exactly half a pixel flips sign for ever
  (`PreciseSettlesIff`, `HalfPixelFlips`); the drain of a line scroll is
  geometric only while the first share fits 32 bits (`DrainIsGeometricIff`).
* An unbracketed host with a colon, printed without its default port, is not
  parsed back to the same origin (`PrintThenParseIff`, `BareLoopbackIsLost`).
* After activating no layer, activating the top of the stack again does not
  give it the focus back (`ReactivatingTopStaysBlurred`); outside shutdown every
  other change of the top does (`TopHasFocusIff`).
* The check inside the poll timer whether polling should go on never fails:
  a pending timer always has work to do (`OneTimerThatPolls`).

## Model

| member | source | states |
|---|---|---|
| `Frames.SliceInRange` | src/gpu_paint/src/painter.rs:712-725 | A rectangle inside a frame that passed the buffer check selects a byte range that lies inside the strided buffer; the multiplications do not have to be redone per rectangle. |
| `Frames.TexelIsBytes` | src/gpu_paint/src/painter.rs:194-211 | A texel is four bytes in a row: blue, green, red, alpha. |
| `Frames.ClipRect` | src/gpu_paint/src/painter.rs:747-774 | What survives clipping is exactly the intersection of the rectangle with the bounds, pixel by pixel, for every origin and extent, negative ones included. |
| `Frames.OnlyDamageIsTouched` | src/gpu_paint/src/painter.rs:195-210 | An upload onto a base with a damage list touches exactly the damage that lies on both frame and texture. |
| `Frames.CheckBufferIff` | src/gpu_paint/src/painter.rs:707-725 | A frame with positive sides passes if and only if its rows do not overlap and its every texel lies in the buffer. |
| `Frames.StepAgreesIff` | src/gpu_paint/src/painter.rs:195-210 | One more honest frame on a texture that was right leaves it right if and only if nothing visible of the previous frame sticks out beyond the new one. |
| `Frames.RunAgreesIff` | src/gpu_paint/src/painter.rs:184-211 | Dirty-rect upload refines full upload: over any run whose damage lists cover what changed, the texture equals the full upload of the last frame after every frame, if and only if no frame leaves residue of its predecessor. |
| `Frames.GrowingFramesLeaveNoResidue` | src/gpu_paint/src/painter.rs:196-200 | A frame at least as large as its predecessor, on the texture, leaves none. |
| `Frames.ShrinkingFrameLeavesResidue` | src/gpu_paint/src/painter.rs:408-425 | The condition is needed: two frames, two texels wide and then one, both without a damage list, leave a stale texel on a texture that keeps its size. |
| `Surface.UploadTexture.WriteRect` | src/gpu_paint/src/painter.rs:776-812 | Every texel of the rectangle becomes the frame's own texel at that place and no other texel changes; the slice handed to the copy starts and ends inside the buffer. |
| `Surface.UploadTexture.Write` | src/gpu_paint/src/painter.rs:195-210 | The loop over the damage list writes exactly the union of the clipped rectangles, or the whole common area when there is no base or no list. |
| `Surface.SliceTexelIsSample` | src/gpu_paint/src/painter.rs:784-811 | Reading the slice at row and column offsets is reading the frame at the rectangle's place, whatever the stride. |
| `Surface.Surface.constructor` | src/gpu_paint/src/painter.rs:214-280 | A new surface sits at its extent, has been configured once and holds no texture. |
| `Surface.Surface.ReconfigureTo` | src/gpu_paint/src/painter.rs:411-426 | A configure happens exactly on a new extent or a severed binding, and leaves the chain at the wanted extent with the binding sound; only a new extent drops the texture, and only then does the frame-following policy move the stored size. |
| `Surface.Surface.Resize` | src/gpu_paint/src/painter.rs:332-339 | A non-positive size changes nothing; a painter only stores the size; an owner moves to the clamped size, configuring exactly when that differs or the binding was severed, and dropping the texture exactly when the extent moved. |
| `Swapchain.WindowKeepsItsRule` | src/gpu_paint/src/painter.rs:100-131 | After a present a sub-surface or composition visual is at the size of the frame, an X11 window at the size it was last given, the layer of another thread where that thread left it; wherever the painter configures, nothing is owed afterwards. |
| `Swapchain.ClampIsNearest` | src/gpu_paint/src/painter.rs:319-322 | The extent in force is, in each direction, the size between one texel and the device limit that is nearest to the one asked for. |
| `Surface.HoldableIsUnclamped` | src/gpu_paint/src/painter.rs:429-436 | A frame passes the size check if and only if its sides are positive and clamping would leave them alone. |
| `Surface.Surface.ContentDetached` | src/gpu_paint/src/painter.rs:349-351 | Marks the binding severed and changes nothing else. |
| `Surface.Surface.TakeConfigured` | src/gpu_paint/src/painter.rs:293-295 | Says whether a configure ran since it was last asked, and forgets it. |
| `Surface.Surface.ExtentFor` | src/gpu_paint/src/painter.rs:397-406 | A painter ends at the extent its policy asks for; an owner configures nothing and reports the extent it has. |
| `Surface.Surface.TakeUpload` | src/gpu_paint/src/painter.rs:506-536 | The held texture if its size still fits, else a fresh transparent one that needs a base. |
| `Surface.Surface.AcquireFrame` | src/gpu_paint/src/painter.rs:540-588 | At most two requests and one configure: a second request follows exactly a lost or outdated answer to a painter; the result is decided by the last answer. |
| `Surface.Surface.DrawAndPresent` | src/gpu_paint/src/painter.rs:590-672 | The caller's latch runs exactly when the frame is shown, which the deciding answer alone settles; the configures are counted: one before asking again, one after a suboptimal frame, none for an owner. |
| `Surface.DrawByAnswers` | src/gpu_paint/src/painter.rs:540-672 | Answer by answer what a draw reports, how often it configures and whether it shows a frame, on both kinds of surface. |
| `Surface.Surface.UploadFrame` | src/gpu_paint/src/painter.rs:449-455 | Sizing, taking and writing keep the texture equal to the incremental upload of the frames it has received since it was created; the texture stored is the old one or a new one. |
| `Surface.Surface.PresentPixels` | src/gpu_paint/src/painter.rs:438-457 | Bad dimensions, a short buffer and a hidden surface are told apart and change nothing; an accepted frame is in the texture whatever the acquire then answers, the answer decides what is reported, and the configure flag and count say exactly what ran. |
| `Surface.Surface.PresentShared` | src/gpu_paint/src/painter.rs:459-499 | A failed import is a skipped frame, after any configure the extent needed; no upload texture is ever made. |
| `Surface.Surface.Present` | src/gpu_paint/src/painter.rs:362-386 | The first frame fixes the kind; a frame of the other kind is skipped without touching extent, texture or configures. |
| `Surface.Surface.TextureShowsLastFrame` | src/gpu_paint/src/painter.rs:141-143 | For a surface in any reachable state: if its run was honest and left no residue, its texture is the full upload of the last accepted frame, transparent elsewhere. |
| `Surface.Surface.FollowFrameIsClean` | src/gpu_paint/src/painter.rs:396-426 | Under the frame-following policy residue cannot occur: a frame of another size gets a new texture. |
| `Surface.PresentAll` | src/gpu_paint/src/painter.rs:438-457 | End to end through the methods: after any honest run of copied frames of any sizes on a visible frame-following surface, whatever the window system answers, the texture is exactly the last frame. |
| `Surface.StaleTexelOnWindow` | src/gpu_paint/src/painter.rs:397-426 | The same two presents on a surface that follows an X11 window really leave the stale texel. |
| `SubmitGate.RunKeepsInv` | src/gpu_paint/src/context.rs:32-47 | On every interleaving of any number of surfaces the gate's two sides are held exactly by the threads at the matching program points, and every surface agrees with what the event log says of it. |
| `SubmitGate.ConfigureExcludesSections` | src/gpu_paint/src/context.rs:43-47 | No configure overlaps any surface's acquire-submit-present section, nor another configure. |
| `SubmitGate.NoReentry` | src/gpu_paint/src/painter.rs:559-580 | No thread asks for either side of the gate while it holds the read side. |
| `SubmitGate.PainterPresentsBound` | src/gpu_paint/src/painter.rs:341-351 | Read from the log alone: a painter surface never presents between a severed binding and its next configure. |
| `SubmitGate.OwnerConfiguresOnlyAsOwner` | src/gpu_paint/src/painter.rs:105-120 | An owner surface takes the write side only from creation or resize. |
| `SubmitGate.AtMostOneRetry` | src/gpu_paint/src/painter.rs:540-588 | Since a present began, at most one configure was a retry. |
| `SubmitGate.CallsAreBounded` | src/gpu_paint/src/painter.rs:540-672 | However the others interleave, a call takes at most eleven steps of its own. |
| `SubmitGate.NoDeadlock` | src/gpu_paint/src/painter.rs:540-672 | While any call is unfinished some call can step, even when readers queue behind waiting writers. |
| `SubmitGate.PresentAgreesWithSurface` | src/gpu_paint/src/painter.rs:438-457 | However the others interleave, a present that is over has configured exactly as often, shown a frame exactly when, and left the swapchain exactly where the single-threaded surface says it does for the answers it got. |
| `SubmitGate.PresentConfiguresIff` | src/gpu_paint/src/painter.rs:397-426 | From the event log alone: a present of a painter surface asks for a sizing configure if and only if the extent due differs from the last one configured or a binding was severed after the last configure ended. |
| `SubmitGate.NewIsConfiguredFirst` | src/gpu_paint/src/painter.rs:214-280 | A surface can be made at any moment, waits for the gate and nothing else, and with the gate free is idle at its extent after one configure. |
| `SubmitGate.ImportIsDecidedFirst` | src/gpu_paint/src/painter.rs:459-499 | A present is given up for a failed import only before its first frame was asked for, with the gate not held. |
| `SubmitGate.FailedImportIsSkipped` | src/gpu_paint/src/painter.rs:459-499 | With the gate free, a frame whose import fails costs the one configure its extent needs and nothing else. |
| `SaveWorker.RunKeepsInv` | src/config/src/lib.rs:684-718 | What every step of savers, worker and shutdown keeps: written, in-hand and queued snapshots are a subsequence of the accepted ones ending in the newest. |
| `SaveWorker.AtMostOneWorker` | src/config/src/lib.rs:845-849 | No interleaving spawns a second worker: a save starts one only when there never was one. |
| `SaveWorker.WritesFollowAcceptance` | src/config/src/lib.rs:677-680 | The snapshots written are a subsequence of those accepted, in order of acceptance. |
| `SaveWorker.StopIsFinal` | src/config/src/lib.rs:838-844 | Once stop is set nothing is accepted any more, whatever runs afterwards. |
| `SaveWorker.ShutdownDrains` | src/config/src/lib.rs:854-867 | When the shutdown call that set stop returns: slot empty, no worker running, the last accepted snapshot is the last written, and nothing is accepted ever after. |
| `SaveWorker.InitialisedShutdownStops` | src/config/src/lib.rs:854-860 | A shutdown call that finds the worker state initialised has closed the queue when it returns. |
| `SaveWorker.EarlyShutdownClosesNothing` | src/config/src/lib.rs:826-828 | The other half: a shutdown call before the first save changes nothing and the next save is still accepted, although the comment on the saving function promises a no-op after shutdown. |
| `SaveWorker.NoDeadlock` | src/config/src/lib.rs:829-867 | While a call is unfinished, some step that is not a new call is possible. |
| `SaveWorker.StoppedWorkerDrains` | src/config/src/lib.rs:709-718 | After stop every worker step uses up one of a bounded number that nobody adds to; that it works while nothing is stopped is the next three. |
| `SaveWorker.QueuedWakesWorker` | src/config/src/lib.rs:712-713 | A worker that waits with a snapshot queued can take it, no shutdown needed. |
| `SaveWorker.AcceptedIsWritten` | src/config/src/lib.rs:709-718 | From every reachable state, stopped or not, steps of the worker alone, after that of the thread about to start it if it was not started, make the last accepted snapshot the last written. |
| `SaveWorker.StartedWorkerWrites` | src/config/src/lib.rs:829-850 | Once a worker was started its own steps alone are enough. |
| `SaveWorker.AcceptedIsOffered` | src/config/src/lib.rs:829-850 | From the event log alone: what was accepted is exactly what was offered before the queue was stopped, each call offering the snapshot it took last. |
| `SaveWorker.CallsAreBounded` | src/config/src/lib.rs:829-867 | However savers, worker and shutdown interleave, a call takes at most four steps of its own. |
| `Utf8.EncodeInjective` | src/config/src/lib.rs:1048-1051 | Comparing encoded names is comparing names: the encoding of section 3 of RFC 3629 is injective. |
| `Utf8.TakeFitIsLongest` | src/config/src/lib.rs:925-934 | The cut is a prefix of whole characters that fits, and every longer prefix does not. |
| `Utf8.OnlyBoundary` | src/config/src/lib.rs:930-932 | From the end of that prefix up to the limit, its end is the only character boundary, so the search down stops there. |
| `Utf8.CharRoundTrip` | src/config/src/lib.rs:925-934 | The bytes of a character give its code point back and are as few as the standard allows. |
| `DeviceName.TruncateDeviceName` | src/config/src/lib.rs:925-934 | The boundary search terminates, never stops below byte 61 when something is cut, and leaves the longest fitting prefix. |
| `DeviceName.FoldWhitespace` | src/config/src/lib.rs:1029-1046 | The single pass equals splitting at the six whitespace characters and joining the non-empty words with one space. |
| `DeviceName.FoldingIs` | src/config/src/lib.rs:1029-1046 | Folding loses no character but the six, by code point 9 to 13 and 32; leaves only single spaces between other characters; and leaves a name like that alone. |
| `DeviceName.GapBecomesSpace` | src/config/src/lib.rs:1029-1046 | Two parts of a name stay two: a gap of any width and of any of the six between them becomes one space. |
| `DeviceName.NormalizeDeviceName` | src/config/src/lib.rs:1029-1053 | The whole normaliser meets its declarative form: fold, cut to 64 bytes, empty when equal to the platform default. |
| `DeviceName.NormalizedTwiceIff` | src/config/src/lib.rs:1029-1053 | Normalising again changes nothing if and only if the folded name fits 64 bytes, or its cut does not fall right after a space, or the cut is the platform default. |
| `DeviceName.NotIdempotent` | src/config/src/lib.rs:1040-1051 | It does happen: 63 letters, a space and one more letter are normalised to something else the second time. |
| `Settings.SaveLoadSaveIff` | src/config/src/lib.rs:471-629 | Save, load, save writes the same document if and only if the scale is unset or within 0.5 to 4 and the name fits its column. |
| `Settings.LoadedIsStorable` | src/config/src/lib.rs:64-75 | Whatever document was loaded, what is held afterwards meets that condition. |
| `Settings.SaveIsAFixedPoint` | src/config/src/lib.rs:471-629 | For every document, load then save is a fixed point of load and save. |
| `Settings.ReloadRestoresIff` | src/config/src/lib.rs:591-629 | The settings themselves survive a save and a load exactly when nothing was left out as equal to a default it does not load back to: migration marker, decoding default, name length, whole window pairs. |
| `Settings.EmptyDocumentKeeps` | src/config/src/lib.rs:471-543 | A document that says nothing changes no setting held. |
| `Settings.EmptyDocumentGives` | src/config/src/lib.rs:263-290 | A first start, with nothing in the document, has exactly the defaults of the code. |
| `Settings.DefaultsWrite` | src/config/src/lib.rs:591-629 | Saved untouched, the defaults write the empty server, the unmaximised window and the migration marker, and nothing else. |
| `Settings.MarkerTellsSavedDocuments` | src/config/src/lib.rs:602-612 | Only a document with the marker counts as migrated, and every document a save wrote has it. |
| `Settings.LeftOutIff` | src/config/src/lib.rs:591-629 | A text or a switch is left out if and only if fresh defaults already have it, or it spells out the decoding default. |
| `Settings.ScaleIsNearest` | src/config/src/lib.rs:64-75 | A positive window scale ends at the place between 0.5 and 4 nearest to it; any other leaves the scale held. |
| `Settings.Store.OverlayWindow` | src/config/src/lib.rs:504-543 | Each geometry value the document has replaces the one held; the scale is kept, pulled to the nearer bound or ignored. |
| `Settings.Store.Overlay` | src/config/src/lib.rs:472-589 | Every value the document has replaces the one held, the name cut to its column by the byte search, and nothing else changes. |
| `Settings.LoadSettings` | src/config/src/lib.rs:471-589 | Fresh defaults with a document laid over them are what the load function says, and are storable. |
| `Scroll.PreciseRemainderIff` | src/input/src/scroll.rs:111-115 | A precise flush leaves at most half a pixel exactly when the amount fits the 32-bit chunk. |
| `Scroll.PreciseSettlesIff` | src/input/src/scroll.rs:111-115 | With no new input a second precise flush emits something exactly when half a pixel is left. |
| `Scroll.HalfPixelFlips` | src/input/src/scroll.rs:111-115 | That half pixel flips sign on every flush and never drains. |
| `Scroll.LineNeverOvershoots` | src/input/src/scroll.rs:116-133 | A line flush moves toward zero by its chunk, never past it, and emits exactly from one pixel up. |
| `Scroll.DrainIsGeometricIff` | src/input/src/scroll.rs:13-17 | After every number n of line flushes at most 0.55 to the n of the amount plus ten ninths is left, if and only if the first share fits the chunk. |
| `Scroll.WholeBurstIsExact` | src/input/src/scroll.rs:116-133 | A whole number of pixels is emitted exactly, and is out after as many flushes as pixels. |
| `Scroll.ScrollAccum.Accumulate` | src/input/src/scroll.rs:68-102 | One event adds its own delta to each axis, forty times that for lines, and becomes the one the next flush is sent for; it asks for a flush exactly when none is under way. |
| `Scroll.ScrollAccum.Flush` | src/input/src/scroll.rs:104-146 | One flush leaves the specified remainders and forwards the two chunks, or nothing when both are zero. |
| `Scroll.DrainLine` | src/input/src/scroll.rs:116-132 | The nudged share and the dropped stub of one axis. |
| `Scroll.LineShare` | src/input/src/scroll.rs:116-132 | While it fits the chunk a line flush forwards forty-five hundredths of the amount, rounded, or one pixel when that is nothing and a whole pixel is there; what is left is nothing or at least half a pixel. |
| `Scroll.RoundsHalvesAway` | src/input/src/scroll.rs:109-133 | Rounding is to the nearest whole number, halves away from zero. |
| `Scroll.Conservation` | src/input/src/scroll.rs:63-146 | On every run each axis accounts for all input: emitted plus remainder plus less than half a pixel per line flush; precise flushes lose nothing. |
| `Scroll.FlushConserves` | src/input/src/scroll.rs:104-146 | One flush splits the amount into chunk, remainder and a drop below half a pixel, dropped only when nothing remains. |
| `Scroll.NothingPendingNothingLeft` | src/input/src/scroll.rs:104-108 | A flush that returns early never strands a remainder. |
| `Scroll.FlushPendsIff` | src/input/src/scroll.rs:104-135 | After a flush none is scheduled, and one is pending if and only if something is left. |
| `Scroll.EmittingFlushMakesProgress` | src/input/src/scroll.rs:116-133 | Every emitting line flush brings the axes together at least one pixel nearer zero: the termination measure of a drain. |
| `Scroll.OneScheduledFlush` | src/input/src/scroll.rs:88-105 | Between two flushes exactly the first event asks for one. |
| `Scroll.LastEventOwns` | src/input/src/scroll.rs:68-146 | The place, modifiers and precision a flush will carry are those of the last event, as the log alone tells them. |
| `Framing.Reader.ReadFrame` | src/instance_ipc/src/lib.rs:98-127 | However the stream is chunked, one call yields the next frame of the stream as a whole, leaves exactly the rest, and never holds more than the cap. |
| `Framing.Reader.ReadAll` | src/instance_ipc/src/lib.rs:98-127 | Repeated reads yield exactly the frames of the stream and end without error exactly when the stream does. |
| `Framing.Reader.ServeOne` | src/instance_ipc/src/lib.rs:370-399 | One turn hands on a request exactly when nothing gave up, a frame came and it decodes; it is the last turn when the reply fails. |
| `Framing.Reader.ServeFrames` | src/instance_ipc/src/lib.rs:362-401 | The serving loop handles exactly the requests its specification lists for the stream, the decoder and what happens around each frame. |
| `Framing.ServedIsPrefix` | src/instance_ipc/src/lib.rs:362-401 | What is served is a prefix of the frames of the stream. |
| `Framing.ServedIff` | src/instance_ipc/src/lib.rs:362-401 | Request n is served if and only if every frame before it decodes and is answered, nothing gives up up to it, and it decodes itself. |
| `Framing.SentIsReceived` | src/instance_ipc/src/lib.rs:72-79 | Any sequence of newline-free messages within the cap comes back frame by frame, whatever follows it. |
| `Framing.StreamIsLinesAndTail` | src/instance_ipc/src/lib.rs:98-127 | Every byte stream is its terminated lines and one unterminated tail. |
| `Framing.FramesAreLines` | src/instance_ipc/src/lib.rs:98-127 | With every line within the cap the frames are exactly the lines, and a non-empty tail that fits. |
| `Framing.ErrorAtFirstLongLine` | src/instance_ipc/src/lib.rs:107-119 | A line over the cap ends the stream in an error right after the lines before it. |
| `Framing.EndsCleanlyIff` | src/instance_ipc/src/lib.rs:107-119 | A stream is read without error if and only if no line and no tail is longer than 65536 bytes. |
| `Framing.TrimEndIs` | src/instance_ipc/src/lib.rs:131-137 | What is decoded is the frame without its trailing bytes 9, 10, 12, 13 and 32, all of them and nothing else. |
| `Policy.CreateWith` | src/instance_ipc/src/lib.rs:173-187 | Binding makes at most seven attempts, waits fifty milliseconds between those after the second, and overwrites a name if and only if the first attempt found it held and the probe was refused or found nothing. |
| `Policy.Rebind` | src/instance_ipc/src/lib.rs:197-216 | Five waits of 50 ms at most, stopping at the first bind that succeeds. |
| `Policy.Backoff.NextDelay` | src/instance_ipc/src/policy.rs:75-79 | Hands out the current delay and doubles it up to the maximum. |
| `Policy.Backoff.Reset` | src/instance_ipc/src/policy.rs:83-85 | A success starts the next streak from the first delay. |
| `AcceptLoop.CapHolds` | src/instance_ipc/src/lib.rs:298-360 | In every interleaving the counter is the number of unfinished serving tasks, counting one about to start, and never exceeds eight. |
| `AcceptLoop.BackoffIsExponential` | src/instance_ipc/src/policy.rs:58-86 | The wait after k consecutive failures since the last success is ten times two to the k milliseconds, at most a second. |
| `AcceptLoop.WaitEnds` | src/instance_ipc/src/lib.rs:318-330 | When the wait is over the loop accepts again, with nothing else changed. |
| `AcceptLoop.RefusedOnlyAtTheCap` | src/instance_ipc/src/lib.rs:316-340 | After the grace wait a peer is turned away if and only if eight tasks are unfinished at that moment. |
| `AcceptLoop.FullHouseGetsGrace` | src/instance_ipc/src/lib.rs:331-340 | At the first look a peer goes on at once with fewer than eight tasks unfinished, and with eight waits once and is looked at again. |
| `AcceptLoop.RoomMeansService` | src/instance_ipc/src/lib.rs:308-360 | A peer accepted with fewer than eight tasks unfinished is served by a task of its own, and the loop is back at accepting with the backoff reset. |
| `AcceptLoop.SlotComesBack` | src/instance_ipc/src/lib.rs:352-358 | Whatever the loop is doing, a task that has finished gives its slot back. |
| `AcceptLoop.LoopGoesOn` | src/instance_ipc/src/lib.rs:309-360 | Until it is stopped the loop can always go on by itself, without waiting for a task. |
| `AcceptLoop.StopIsHeard` | src/instance_ipc/src/lib.rs:309-340 | A stop is heard wherever the loop waits and only there, ends it for good, and leaves the serving tasks alone. |
| `Text.PortRoundTrip` | src/jellyfin/src/lib.rs:500-516 | Every 16-bit port survives being printed and parsed. |
| `Text.PortForms` | src/jellyfin/src/lib.rs:510-514 | A plus sign or zeros in front of a port change nothing; a number over 65535 and no digits at all are no port. |
| `Text.ClassesByCodePoint` | src/jellyfin/src/lib.rs:414-425 | White space by code point, as Unicode has it; a URL may hold neither that nor a control. |
| `Text.LowerByTable` | src/jellyfin/src/lib.rs:516-527 | Lower-casing turns twenty-six letters into twenty-six others and leaves the rest. |
| `Origin.ParsedIsWellFormed` | src/jellyfin/src/lib.rs:486-536 | Parsing yields only a lower-case http or https scheme, a lower-case host without at sign, stop or early bracket, and a 16-bit port. |
| `Origin.WellFormedIsParsed` | src/jellyfin/src/lib.rs:486-536 | Conversely every such origin is some URL's: the one that spells its port out. |
| `Origin.FoldOrigin` | src/jellyfin/src/lib.rs:486-536 | The case of letters never matters: URLs that differ in nothing else have the same origin, or none. |
| `Origin.UserinfoIsDropped` | src/jellyfin/src/lib.rs:486-490 | Whatever stands before the last at sign of the authority does not change the origin. |
| `Origin.EmptyPortIsDefault` | src/jellyfin/src/lib.rs:510-514 | A colon without a port means the default port of the scheme. |
| `Origin.AfterBracketIff` | src/jellyfin/src/lib.rs:493-516 | After a bracketed host comes the end, or a colon and a port that may be left out; anything else makes the authority fail. |
| `Origin.PrintThenParseIff` | src/jellyfin/src/lib.rs:462-536 | Printing an origin and parsing it, whatever path, query or fragment follows, gives it back if and only if its host is bracketed or colon-free, or its port is printed. |
| `Origin.ParsedPrintsBackIff` | src/jellyfin/src/lib.rs:462-536 | The same condition for the origin of any URL that has one. |
| `Origin.BareLoopbackIsLost` | src/jellyfin/src/lib.rs:462-536 | The failing case comes up: an http URL with the host ::1 and port 80 has an origin that, printed, does not parse back. |
| `Origin.BaseKeepsOrigin` | src/jellyfin/src/lib.rs:388-398 | The base of a URL has the origin of the URL; where the base ends is the next two. |
| `Origin.ExtractBaseUrlIff` | src/jellyfin/src/lib.rs:388-398 | The base is the URL cut at a place after its scheme if and only if that is where the last /web begins, in any case of letters, or, with none, the first slash or the end. |
| `Origin.WebClientKeepsBase` | src/jellyfin/src/lib.rs:388-398 | An http or https base followed by /web and a tail without another /web gives exactly that base back, sub-path and all. |
| `Origin.RedirectDecidedByOrigins` | src/jellyfin/src/lib.rs:572-587 | A redirect is kept, upgraded or refused by the two origins alone; both directions of each case. |
| `Origin.NothingToCompareIsKept` | src/jellyfin/src/lib.rs:572-577 | A redirect with nothing to compare is kept: an address without an origin, or no final one. |
| `Origin.ChainIsFollowedIff` | src/jellyfin/src/lib.rs:559-587 | A chain of redirects is followed to its end if and only if each final address, where it comes, is empty, of the origin in force, or moves it from http to https on the same host; and it ends at an address of the origin those moves lead to. |
| `Origin.LabelIs` | src/jellyfin/src/lib.rs:589-602 | What is shown of a refused target is its first printable characters, as many as there is room for. |
| `Origin.ChainKeepsServer` | src/jellyfin/src/lib.rs:572-587 | Along any chain of accepted redirects the host never changes, at most one upgrade happens, and the scheme never goes back. |
| `Origin.CandidatesNameOneServer` | src/jellyfin/src/lib.rs:613-642 | A typed scheme is tried alone; a bare address with any candidate has exactly two, https first and then http, both naming one host and the typed port or each scheme's own. |
| `Origin.CandidatesIff` | src/jellyfin/src/lib.rs:613-642 | There is something to try if and only if the trimmed input is an http or https URL, or is bare, printable and does not start where a host would already have ended. |
| `Origin.CandidatesAreTyped` | src/jellyfin/src/lib.rs:613-642 | Letter case apart, every candidate is what was typed, trimmed, with a scheme in front exactly when none was typed. |
| `Origin.TrimIs` | src/jellyfin/src/lib.rs:350-362 | Trimming takes all whitespace at both ends and nothing else. |
| `Origin.CasedFolds` | src/jellyfin/src/lib.rs:350-362 | Lower-casing a typed scheme changes nothing but the case of letters. |
| `FocusHistory.Browsers.SetActive` | src/jfn_cef/src/browsers.rs:198-227 | The activated layer leaves its old place and becomes the top, and the focus moves from the old top to it; activating none takes the focus away and leaves the stack. |
| `FocusHistory.Browsers.Create` | src/jfn_cef/src/browsers.rs:121-156 | A new layer joins the registry last and touches neither the stack nor the focus. |
| `FocusHistory.Browsers.Unregister` | src/jfn_cef/src/browsers.rs:180-195 | The found layer leaves the registry and loses the focus, and the given one regains it unless a shutdown runs; an unknown layer changes nothing. |
| `FocusHistory.Browsers.Remove` | src/jfn_cef/src/browsers.rs:161-196 | The layer leaves stack and registry; the new top regains the focus exactly when the removed one was on top, was registered, and no shutdown runs. |
| `FocusHistory.HistoryRefinesLog` | src/jfn_cef/src/browsers.rs:121-227 | Over any log the stack is exactly the surviving activated layers in order of last activation, without duplicates; outside shutdown nobody but its top has the focus. |
| `FocusHistory.RegistryFollowsLog` | src/jfn_cef/src/browsers.rs:121-196 | Over any log the registry holds exactly the layers created and not removed since, oldest first. |
| `FocusHistory.TopHasFocusIff` | src/jfn_cef/src/browsers.rs:198-227 | Exactly the top has the focus, during shutdown too, if and only if there is no top, or neither an activation of none nor a top lost during shutdown is still in force. |
| `FocusHistory.ReactivatingTopStaysBlurred` | src/jfn_cef/src/browsers.rs:206-208 | Activating the top again after activating none does not give it the focus back. |
| `Backdrop.CachedKeepsStore` | src/web/astrofin-theme.js:310-318 | The key list stays duplicate-free, equal to the map's domain and at most 64 long; the oldest keys go, what stays is unchanged. |
| `Backdrop.RunIsSound` | src/web/astrofin-theme.js:203-235 | On every interleaving the cache is sound, at most one layer is lit, and once all image loads are in the lit layer shows exactly what is wanted. |
| `Backdrop.WantedArtCanLight` | src/web/astrofin-theme.js:203-235 | After every run the wanted art is lit, or its image can still come and light it, or fail and clear. |
| `Backdrop.LoadsAreCounted` | src/web/astrofin-theme.js:203-226 | A load starts exactly when another URL is wanted on layers that exist, and is answered once. |
| `Backdrop.StaleLoadsChangeNothing` | src/web/astrofin-theme.js:209-226 | A load or failure that nobody waits for any more changes nothing to be seen. |
| `Backdrop.ClearingDarkens` | src/web/astrofin-theme.js:229-235 | Clearing is always possible, leaves nothing wanted and every layer dark, and keeps their pictures. |
| `Backdrop.LayersAreMadeOnce` | src/web/astrofin-theme.js:153-183 | Layers can be made exactly once: two of them, dark and without a picture. |
| `Backdrop.AnswersAreUsedUp` | src/web/astrofin-theme.js:385-395 | A fetch that was handled or failed is over, and no other request is touched. |
| `Backdrop.ArtFollowsFocus` | src/web/astrofin-theme.js:368-396 | On every run a fetched item changes what is wanted if and only if it was found, its art is another one, it was asked for last and its card is the one focused last in the log; and then what is wanted is its art. |
| `Backdrop.FocusedCardGetsItsArt` | src/web/astrofin-theme.js:368-396 | A focus that moves to a tracked card with an id, whose item was cached or arrives, and that no other focus replaces before that item is handled, gets its art wanted, whatever loads, failures and other items interleave. |
| `Backdrop.FocusCanGetArt` | src/web/astrofin-theme.js:345-396 | And it can happen: an uncached card that gets the focus has its item on the way, which can arrive, stay cached and bring its art. |
| `Backdrop.FocusAsks` | src/web/astrofin-theme.js:368-385 | A new focus makes a request for exactly that card and id under a fresh token if and only if the item is cached or can be fetched, answered at once from the cache or on its way; it touches nothing else. |
| `Backdrop.FocusKeeps` | src/web/astrofin-theme.js:368-385 | Any other call, for no card, an untracked one, one without an id or the one already focused, changes nothing but the focus. |
| `Backdrop.ArrivalIsCached` | src/web/astrofin-theme.js:345-355 | An item that arrives is in the cache afterwards under the id asked for. |
| `Backdrop.AfterIsOnward` | src/web/astrofin-theme.js:203-396 | A run is what its events, one after the other, make of a new page. |
| `Backdrop.OnlyWantedLoadsLight` | src/web/astrofin-theme.js:208-223 | A picture changes or a layer lights up if and only if the image that arrived is the one wanted, on the layer whose turn it is. |
| `Backdrop.Page.CacheItem` | src/web/astrofin-theme.js:310-318 | The evicting loop equals the specification of the store. |
| `Backdrop.Page.constructor` | src/web/astrofin-theme.js:300-368 | A new page wants nothing, caches nothing and has no layers. |
| `Backdrop.Page.EnsureLayers` | src/web/astrofin-theme.js:153-183 | The two layers are made once, dark and empty. |
| `Backdrop.Page.ClearBackdrop` | src/web/astrofin-theme.js:229-235 | Nothing wanted, every layer dark, pictures kept. |
| `Backdrop.Page.SetBackdrop` | src/web/astrofin-theme.js:203-208 | Nothing without layers or for the URL already wanted; none clears; a new one starts one load. |
| `Backdrop.Page.ImageLoaded` | src/web/astrofin-theme.js:209-223 | A load that is no longer wanted is ignored; the wanted one swaps the layers. |
| `Backdrop.Page.ImageFailed` | src/web/astrofin-theme.js:224-226 | A failed load clears only what it was loading for. |
| `Backdrop.Page.SetFocusedCard` | src/web/astrofin-theme.js:368-385 | A new card is asked about only on a tracked page with an id, under a fresh token. |
| `Backdrop.Page.ItemArrived` | src/web/astrofin-theme.js:345-355 | An item that arrives is cached, a missing one is not. |
| `Backdrop.Page.ItemReady` | src/web/astrofin-theme.js:385-391 | An item is used only for the latest token and the card still focused. |
| `Backdrop.Page.ItemRejected` | src/web/astrofin-theme.js:395-395 | A failed fetch leaves everything but itself as it was. |
| `Backdrop.Page.Handle` | src/web/astrofin-theme.js:203-396 | Each event is one call, and the call does what the step says. |
| `Backdrop.Drive` | src/web/astrofin-theme.js:203-396 | Any run of events on a new page ends where the run says, so what is proved of runs holds of the script. |
| `CodecList.StartListsAll` | src/web/client-settings.js:131-136 | From duplicate-free inputs the first rows list every supported codec exactly once. |
| `CodecList.RunKeepsCodecs` | src/web/client-settings.js:126-200 | No run of clicks adds, loses or doubles a codec. |
| `CodecList.StartKeepsOrder` | src/web/client-settings.js:131-136 | Both lists keep their order, and when only supported codecs are enabled the user's order is kept whole. |
| `CodecList.DisablingMovesToBorder` | src/web/client-settings.js:145-160 | A click on a checked box takes the codec out of its place, the others keeping theirs, and puts it first below the border. |
| `CodecList.EnablingMovesToBorder` | src/web/client-settings.js:145-160 | A click on an unchecked one takes the codec out of its place and puts it last above the border. |
| `CodecList.ArrowsExchange` | src/web/client-settings.js:168-187 | An arrow exchanges two neighbours and moves nothing else; the other arrow undoes it. |
| `CodecList.ReachableIff` | src/web/client-settings.js:126-200 | Completeness: the orders a user can reach by clicking are exactly the duplicate-free lists of supported codecs. |
| `CodecList.Widget.constructor` | src/web/client-settings.js:130-136 | Enabled codecs first, in the given order, then the remaining supported ones. |
| `CodecList.Widget.Emit` | src/web/client-settings.js:194-196 | The callback receives exactly the enabled prefix, in order. |
| `CodecList.Widget.LastEnabled` | src/web/client-settings.js:140-140 | The reduction finds the end of the enabled prefix, or -1. |
| `CodecList.Widget.ToggleRow` | src/web/client-settings.js:148-160 | Splicing out and in again keeps enabled rows a prefix: an enabled codec goes last among them, a disabled one first among the rest. |
| `CodecList.Widget.MoveUp` | src/web/client-settings.js:168-176 | The arrow swaps two neighbours of the preference order. |
| `CodecList.Widget.MoveDown` | src/web/client-settings.js:179-187 | The same downwards. |
| `CodecList.Widget.ButtonsMatchClicks` | src/web/client-settings.js:171-182 | An arrow is usable exactly when its click is meaningful. |
| `Color.FormatHexRgb` | src/color/src/theme.rs:52-64 | The loop writes a hash, six lower-case digits and a NUL. |
| `Color.DigitAt` | src/color/src/theme.rs:55-56 | The nibble got by shifting and masking is the digit at that place. |
| `Color.PrintThenParse` | src/color/src/lib.rs:34-114 | Both parsers read back the low 24 bits of any colour printed. |
| `Color.PrintAlikeIff` | src/color/src/theme.rs:52-64 | Two colours print alike if and only if their low 24 bits agree. |
| `Color.ParseThenPrintIff` | src/color/src/lib.rs:34-72 | Parsing then printing gives the same bytes if and only if they are a hash and six lower-case digits. |
| `Color.OtherFormsAgree` | src/color/src/lib.rs:34-117 | The short form doubles each digit, the alpha of the long mpv form never matters, and the two parsers agree on six digits. |
| `Color.CaseIsIgnored` | src/color/src/lib.rs:10-17 | The case of digits never matters to either parser. |
| `Color.BlackIff` | src/color/src/lib.rs:34-72 | A string is black if and only if it is malformed, by its length, its mark or a digit, or spells out zeros. |
| `Color.MpvBlackIff` | src/color/src/lib.rs:93-118 | For the other parser the same: a mark and six digits, or eight of which the first two are not looked at. |
| `Color.BareIsBlack` | src/color/src/lib.rs:93-121 | Without a mark and without a slash the text is black. |
| `Color.SlashesAreChannels` | src/color/src/lib.rs:119-145 | Three numbers between slashes are red, green and blue, each scaled to its byte, and a fourth changes nothing. |
| `Color.SlashesAreGrey` | src/color/src/lib.rs:119-145 | A number and an alpha are a grey; a number alone, without a slash, is black. |
| `Color.ScaleIsNearest` | src/color/src/lib.rs:86-88 | A component is the byte nearest to 255 times its number. |
| `Color.BadPieceIsBlack` | src/color/src/lib.rs:119-132 | A fifth piece, or one that is empty, no number or out of range, makes the whole text black. |
| `Color.ParseMpv` | src/color/src/lib.rs:93-145 | The component loop equals its declarative form: one to four numbers in range, grey or red-green-blue, anything else black. |
| `Theme.PushesFollowTheLog` | src/color/src/theme.rs:29-133 | What was pushed is exactly the colour the event log wants over time since the overlay went, with repeats left out: skipping a push never loses a change. |
| `Theme.LastPushIsResolved` | src/color/src/theme.rs:29-133 | Once unlocked the last push is the resolved colour; while locked only the default was pushed; neighbouring pushes differ. |
| `Theme.ThemeColor.constructor` | src/color/src/theme.rs:73-92 | Boot pushes the default once and leaves the tracker locked. |
| `Theme.ThemeColor.Apply` | src/color/src/theme.rs:38-50 | Pushes to both sinks exactly when the resolved colour changed; the background sink gets its text. |
| `Theme.ThemeColor.SetVideoBgTo` | src/color/src/theme.rs:94-102 | Stored always, applied only during unlocked video. |
| `Theme.ThemeColor.Colored` | src/color/src/theme.rs:104-112 | Stored always, applied only when unlocked. |
| `Theme.ThemeColor.Dismiss` | src/color/src/theme.rs:114-120 | Unlocks and applies. |
| `Theme.ThemeColor.SetVideoModeTo` | src/color/src/theme.rs:122-133 | A change of mode applies when unlocked; the same mode again does nothing. |
| `Throughput.Tracker.TrackThroughput` | src/web/playback-source.js:189-205 | One sample moves the two counters; a missing number leaves its counter alone. |
| `Throughput.StrugglingIff` | src/web/playback-source.js:189-205 | Over any history the two counters say what the readings say: the last two measured speeds were both slow, or the last two leads read had both just shrunk below the floor. |
| `Playback.BehindIff` | src/web/playback-source.js:742-764 | On every run the badge says falling behind if and only if what the page was last told plays is a transcode and the answers its own session saw, and no others, say so: two measured speeds in a row under 0.95 of the source, or two leads in a row that had shrunk below 20 seconds. |
| `Playback.SessionIsTold` | src/web/playback-source.js:808-875 | On every run the session is about what the page was last told plays: item, method, frame rate and whether it is confirmed. |
| `Playback.BadgeFollowsAnswers` | src/web/playback-source.js:168-180 | On every run the badge is the one the play method and the answers of the current session call for; the last answer alone says whether a transcode is on the CPU. |
| `Playback.OneTimerThatPolls` | src/web/playback-source.js:690-717 | On every run at most one poll timer is pending, it always finds work to do, and while polling should go on a timer is pending or a poll is under way. |
| `Playback.PollDelays` | src/web/playback-source.js:705-717 | A timer set after an answer waits ten seconds, any other four. |
| `Playback.PollsAgainIff` | src/web/playback-source.js:697-717 | After an answer another poll is timed if and only if a transcode plays that is confirmed or was polled fewer than twelve times. |
| `Playback.FirstPollIsTimed` | src/web/playback-source.js:808-865 | Every transcode that begins, announced or not, has its first poll timed. |
| `Playback.ConfirmationKeepsTimer` | src/web/playback-source.js:829-865 | A start that confirms the play announced before leaves its timer alone, unless the method changed or twelve polls went out; then polling begins again, or ends with the transcode. |
| `Playback.PollsAreAnsweredOnce` | src/web/playback-source.js:766-798 | Counted from the log: every poll started can be answered once, whatever became of its session, and every answer followed up once. |
| `Playback.SessionsAreBounded` | src/web/playback-source.js:697-717 | Every session starts at most 12 polls before it is confirmed and shows at most one toast. |
| `Playback.ToastsComeAfterAnswers` | src/web/playback-source.js:656-669 | No session shows its toast before a poll has settled into it. |
| `Playback.ToastIsWanted` | src/web/playback-source.js:656-669 | An answer shows a toast if and only if none was shown, the notice is on, the session transcodes, and under the default setting it is on the CPU or falling behind. |
| `Playback.ToastIff` | src/web/playback-source.js:656-670 | The same on every run and from the log alone: what plays, how its samples look, what the last answer said and whether its session has shown one decide. |
| `Playback.Source.Schedule` | src/web/playback-source.js:705-717 | The old timer goes before the new one is set. |
| `Playback.Source.ClearTimer` | src/web/playback-source.js:691-695 | The remembered timer goes; no other is touched. |
| `Playback.Source.OnTimer` | src/web/playback-source.js:709-716 | A timer that fires starts one poll, counted while the session is provisional. |
| `Playback.Source.OnAnswer` | src/web/playback-source.js:742-798 | The answer goes to whichever session is current, marks it polled and may show its toast. |
| `Playback.Source.MaybeToast` | src/web/playback-source.js:656-670 | The early returns amount to the one condition for a toast, and the gate is shut behind it. |
| `Playback.Source.OnFollowUp` | src/web/playback-source.js:713-715 | After an answer the next poll is timed exactly when polling should go on. |
| `Playback.Source.NotePlayOptions` | src/web/playback-source.js:808-826 | A usable play request begins a provisional session and, for a transcode, its first timer. |
| `Playback.Source.HandleStart` | src/web/playback-source.js:829-865 | The same item refines the provisional session in place; anything else begins a confirmed one; polling is re-armed on a change or a spent budget. |
| `Playback.Source.HandleStop` | src/web/playback-source.js:867-875 | Clears the timer and begins an idle session. |

## Left out

- Frames.ClipRect: is stated over mathematical integers, so the 32-bit overflow of an origin plus an extent near the type's limits is not modelled.
- Scroll.Conservation: uses real arithmetic, so single-precision rounding is not modelled; the saturating cast to 32 bits is.
- Surface.UploadTexture.constructor: assumes that a new texture is transparent, as the graphics layer zeroes it.
- Surface.Surface.PresentShared: the import of a shared texture is only its success or failure.
- Settings.Store.Overlay: the notices a load logs and the check of the interface scale that only produces them are not modelled, nor a scale that is not a finite number; the fields are worked on as locals and stored back together.
- Settings.SaveLoadSaveIff: the rounding of a double to a single is a parameter that is monotone, idempotent and exact at zero and at both bounds.
- SaveWorker.ShutdownDrains: a write is complete once attempted; a write that fails or panics and the separate synchronous save are not modelled.
- SubmitGate.NoDeadlock: fairness of the lock beyond a writer-preferring queue, dropping a surface, and the final sizes of textures are not modelled.
- AcceptLoop.CapHolds: serving tasks that panic are not modelled; idle timeouts and the stop signal only end a task.
- Policy.CreateWith: two processes that bind at the same moment are not modelled; probe and overwriting bind are separate steps.
- Framing.Reader.ReadFrame: a chunk is never empty before the end of the stream, and reads do not fail otherwise.
- Framing.Reader.ServeFrames: encoding and decoding of messages as JSON are not modelled; whether a frame decodes is a parameter, and so is a stop, an idle timeout or a failed reply around each frame.
- FocusHistory.Browsers.SetActive: a layer that is activated is registered, because the code dereferences it and an unregistered one has been freed; cursor routing, menus and sizes are not modelled.
- Backdrop.Page.SetFocusedCard: the page's route, the card's id and whether the API object exists are parameters; layers are made once and not recreated after the page drops them; the overlays shown beside the backdrop are not modelled.
- Theme.ThemeColor.constructor: a second initialisation and the shutdown of the tracker, which only replace or drop it, are not modelled.
- Color.ParseMpv: reading a decimal fraction from text is a parameter.
- Playback.Source.OnAnswer: an answer carries no session and goes to the current one, as in the code; picking the record out of an answer, the badge and its render retries are not modelled.
- Origin.PrintThenParseIff: characters are code points and lower-casing is ASCII.
- Mailbox: its update is one atomic step, its wait one atomic step enabled when the predicate holds.
- wgpu, CEF, sockets, files, DOM elements and style sheets appear only as the outcomes the code reacts to.
- Surface stacks, transition gates, click counters, adapter ranking, video-mode resolution, button codes, label texts and the pages without state would only add easy members.
