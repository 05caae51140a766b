# Verified model of the tablet appliance

A Dafny model of the tablet's C modules and image tools, with proofs over all inputs
and all runs of the model; what the model leaves out of them is listed at the end.
`dafny verify dfyconfig.toml` checks it.

The parts that the source writes as state changed in place exist twice: a value
with one function for each operation, and a class whose methods, written the way
the source writes them, are proved to compute exactly those functions. Invariants
and whole-run theorems are lemmas about the functions.

- **Touch.** `TouchEvents` (the life cycle of a contact), `TouchDecoder` and
  `TouchInput` (multitouch protocol B with loss recovery), `TouchContacts` (runs of
  the decoder), `TouchStretch` (what it makes of raw records), `TouchCauses` (where each
  published event comes from), `TouchRouter` and `TouchRouterObject` (who owns a contact),
  `TouchRequests` (when the panel is asked to open or close), `TouchPipeline` (decoder and
  router together).
- **Drawing.** `Pixels` (straight-alpha compositing), `Coverage` (the 4x4 subpixel
  count and its fast form), `Binary32` and `CircleTest` (the circle test in single
  precision), `Canvas` (rectangles, rounded rectangles, spans), `DeepPixels` (pixels
  covered whole), `PanelPaint` and `PanelPainter` (full and incremental paints of the
  panel), `PanelView` (what a full paint shows), `PanelFallbackText` and `PanelFontText`
  (its text without and with fonts).
- **Behaviour.** `PowerPolicy` and `PowerPolicyObject` (automatic brightness),
  `ActionWorker` (the child-process worker), `ControlPanel` and `ControlCenter`
  (the panel's taps, drags, slide and two-tap reboot), `ControlTaps` (what a tap brings
  about).
- **Text.** `Utf8`, `GlyphCache` and `GlyphCacheObject`, `TextFit` (decoding and the
  ellipsis).
- **Images.** `DeviceTreeBlob` (adding a memory reservation), `ResourceImage`
  (RSCE images), `Rle8` (the boot logo).
- `Basics`, `Words` (bytes as numbers) and `CArithmetic` are shared.

Where the code does not do what is promised of it, the code is kept, and a concrete
case and the exact condition are proved:

- A second SYN_DROPPED, a flip or a cancel-all between a SYN_DROPPED and its
  SYN_REPORT drops queued CANCELs. `StrictStepExactly` shows that these and no
  other steps break the bracketing of contacts, `OrphanDoublesDown` what is then
  published, `OrphaningHappens` that it occurs, `ResetRestores` that the
  application's reset repairs it.
- "At most one contact belongs to the panel" fails when a drag opens the panel while
  a panel contact is still held (`PanelContactsCanOverlap`). A step breaks it if and
  only if it is such a drag, 60 pixels down from the bar (`UsurpingExactly`), so no run
  without such drags does (`PanelHoldsOne`).
- `cc_handle` with a negative capacity can lose an event and return 0 as if it had
  been handled (`NegativeRoomLosesDown`). Its answers can be relied on for every panel
  and event if and only if the capacity is not negative (`AnswersTrueExactly`).
- A reading stamped 0 ms is taken for "no reading yet", so a later gap goes unnoticed
  (`ZeroStampHidesGap`). The gap check of an open window works if and only if the last
  stamp is not 0 (`GapGuardExactly`), and the gaps behind a decision are in range if
  and only if those after a 0 stamp are (`GapsHoldExactly`).
- A signal can go to a reaped pid (`TheftStrays`). It does if and only if, after another
  party has reaped the child and before the next monitor iteration has looked, there is
  a cancel, a release or an expired iteration on a pid not stopped yet (`StraysExactly`).
- An opaque rounded rectangle of an odd radius from 2897 on, or of any radius from 4096
  on, has a pixel more than exact arithmetic gives it (`OddRadiusPaintsMore`,
  `LargeRadiusPaintsMore`); all others have none (`RoundRectExactly`).
- A centred text can be drawn past the right side of its box (`OverhangHappens`): if and
  only if the indent, the advances before a glyph, its bearing and the column of one of
  its inked cells add up to the width of the box or more, with all but the indent below
  it (`AcrossExactly`). In a text that is not centred they cannot.
- Reserving the zero range in a device tree is accepted and has no effect
  (`ZeroPairHappens`, `ZeroPairIsLost`); every other accepted range joins the map
  (`EditKeepsMeaning`).
- A device tree whose strings precede its structure is accepted, and its header then
  points to other bytes (`StringsCanBeLost`, `SwappedLosesStrings`). The header is right
  if and only if the strings followed the structure (`StringsFoundExactly`).
- RSCE entries with a name over 252 bytes or beyond ASCII can be lost
  (`NamesCanBeLost`); `RoundTripExactly` says when.

## Model

| member | source | states |
|---|---|---|
| TouchEvents.BracketedMeaning | src/touch_input.c:117-136 | the bracketing automaton never breaks on a slot if and only if each of its events is a DOWN exactly when the slot's previous event, if any, ended a contact |
| TouchDecoder.FeedKeepsValid | src/touch_input.c:296-322 | every raw event keeps the decoder's invariant: `frame_event` is the slot's last pending event, open exactly when the slot is active and at the slot's position; nothing is tracked while discarding |
| TouchDecoder.ResyncKeepsValid | src/touch_input.c:377-430 | so does a resync with any answer of the driver |
| TouchInputObject.TouchInput.AppendFrameEvent | src/touch_input.c:108-115 | appends one pending event and remembers its index in the slot |
| TouchInputObject.TouchInput.PublishFrame | src/touch_input.c:117-136 | moves the whole frame to the ready queue and marks each slot as its last DOWN, UP or CANCEL says |
| TouchInputObject.TouchInput.DiscardFrameSlot | src/touch_input.c:138-148 | removes exactly one slot's pending events in place and reindexes the others |
| TouchInputObject.TouchInput.DrainReady | src/touch_input.c:150-164 | hands out the oldest events up to the room given and keeps the rest in order; refuses a negative room |
| TouchInputObject.TouchInput.ClearSlot | src/touch_input.c:166-174 | forgets a contact but not its position |
| TouchInputObject.TouchInput.CancelActiveToFrame | src/touch_input.c:176-187 | the frame becomes one CANCEL for each announced slot, in slot order, and every slot is cleared |
| TouchInputObject.TouchInput.CancelActiveToReady | src/touch_input.c:189-200 | the same CANCELs go to the ready queue and the frame is emptied |
| TouchInputObject.TouchInput.SetFlipped | src/touch_input.c:225-238 | a change cancels everything at the latest time a slot spoke and keeps the slot selection; no change does nothing |
| TouchInputObject.TouchInput.HandleTrackingId | src/touch_input.c:240-261 | UP, DOWN, CANCEL then DOWN, or nothing, by the slot's state and the id; which of them, where and when in whole runs is `UpMeansLift`, `CancelMeansLoss` and `LiftIsPublished` |
| TouchInputObject.TouchInput.HandlePosition | src/touch_input.c:263-294 | a position coalesces into the slot's pending DOWN or MOVE, or appends a MOVE; in whole runs `DownOrMoveTells` and `StretchMeaning` |
| TouchInputObject.TouchInput.FeedOne | src/touch_input.c:296-322 | computes the specified step for every raw event |
| TouchInputObject.TouchInput.Feed | src/touch_input.c:324-333 | a batch is the fold of its events followed by a drain |
| TouchInputObject.TouchInput.Expire | src/touch_input.c:335-354 | every slot silent for more than half a second loses its pending events and, if announced, is cancelled |
| TouchInputObject.TouchInput.CancelAll | src/touch_input.c:356-368 | cancels everything, ends discarding, drains |
| TouchInputObject.TouchInput.ResyncDriver | src/touch_input.c:377-430 | a usable answer starts a DOWN for every contact the driver holds in a slot of ours, an unusable one changes nothing |
| TouchInputObject.TouchInput.ProcessInputEvent | src/touch_input.c:432-464 | an owed resync goes first, a record is lost while it cannot be done, and the report ending a dropped frame owes one |
| TouchContacts.RunInv | src/touch_input.c:296-464 | in every run of raw events, device records, expiries, flips, cancels and drains, each slot's flags agree with its published and pending events |
| TouchContacts.PublishedNeedsDown | src/touch_input.c:117-136 | in every run at all, each published MOVE, UP or CANCEL has an open DOWN on its slot |
| TouchContacts.PublishedIsBracketed | src/touch_input.c:117-354 | in runs that lose no queued CANCEL, each slot's published events are (DOWN MOVE* (UP or CANCEL))* up to a prefix |
| TouchContacts.StrictStepExactly | src/touch_input.c:176-200 | a step keeps the bracketing invariant if and only if it is not a drop, a flip or a cancel-all that empties the frame of a dropped one |
| TouchContacts.OrphaningOrphans | src/touch_input.c:176-200 | every such step leaves a slot the application still holds and the decoder has forgotten |
| TouchContacts.OrphanDoublesDown | src/touch_input.c:240-261 | the next contact on that slot publishes a second DOWN |
| TouchContacts.OrphaningHappens | src/touch_input.c:297-302 | a contact, a report and two drops reach such a step from the start |
| TouchContacts.BatchingIrrelevant | src/touch_input.c:150-164 | for any cut of a raw sequence into calls with any room, what was handed out plus what is queued is the same list, and the rest of the state the same |
| TouchContacts.FramesAreAtomic | src/touch_input.c:296-322 | only SYN_REPORT makes a frame visible, and all of it; in a frame a MOVE is its slot's first event, and the slot's last event holds the slot's position |
| TouchCauses.EndsExactly | src/touch_input.c:117-354 | in every run an UP or CANCEL has been published if and only if a raw record made it pending and a report came before anything dropped it, or a call published it at once; which records and calls those are is told from the record and the slot |
| TouchCauses.UpMeansLift | src/touch_input.c:240-261 | in every run every UP, published or pending, is a tracking id -1 fed while its slot was selected and held a contact, at that slot's position and the record's time |
| TouchCauses.CancelMeansLoss | src/touch_input.c:176-261 | every CANCEL, published or pending, is a loss of records, another id on a held slot, a change of orientation, a cancel-all or half a second of silence, at the slot's position and the time of its cause; nothing else cancels |
| TouchCauses.LiftIsPublished | src/touch_input.c:240-322 | tracking id -1 on a slot with a contact down gives an UP at that slot, position and time, pending until the next report and published by it, unless a loss, a flip, a cancel-all or silence drops the slot's events before |
| TouchCauses.MadeIsPublished | src/touch_input.c:240-322 | so it is with every event a record makes pending, unless a later position rewrites it |
| TouchCauses.DownOrMoveTells | src/touch_input.c:240-294 | every DOWN or MOVE is a new id on the selected slot, or a position of the contact there, with the position that record left the slot at and its time, or the DOWN of a contact the driver said it holds |
| TouchCauses.ResyncMeaning | src/touch_input.c:377-430 | after an answered resync a slot holds a contact if and only if the driver named one for it, with its id, one filtered sample and the time of the report; records speak to the slot the driver named |
| TouchCauses.DropMeaning | src/touch_input.c:166-238 | a loss, a flip, a cancel-all and silence leave no contact on the slots they drop and the others as they were; every slot keeps its place, and only a loss changes the slot records speak to |
| TouchCauses.LatestMeaning | src/touch_input.c:229-231 | the time of such a cancel is the latest at which any slot spoke, or 0 |
| TouchStretch.StretchMeaning | src/touch_input.c:240-322 | after any stretch of raw records without a loss, from a state with no contact down, told from the records alone: which slot records speak to, which slots hold a contact and with which id, the samples since it began and their times, the place the filter makes of them, and when each slot was last spoken to |
| TouchRouting.RouteEffect | src/touch_router.c:80-158 | one event changes only its own slot; ownership is set at DOWN, kept at MOVE and dropped at the end; the panel queue grows by exactly the panel's own event |
| TouchRouting.OwnerFixedAtDown | src/touch_router.c:80-106 | at every point of every run a slot's owner is what its current contact's DOWN decided, or nobody |
| TouchRouting.PanelIsStableFilter | src/touch_router.c:80-174 | in every interleaving of events, openings, closings and windows, what was handed to the panel followed by what is pending is exactly, in order, the events of the contacts it accepted at their DOWN |
| TouchRouting.ProgramIsStableFilter | src/control_input.c:15-47 | the same for whole programs: batches of any size, each with its 32-event window, the panel shown or hidden between them |
| TouchRouting.OpensOncePerContact | src/touch_router.c:108-121 | between two open requests from one slot a new contact has begun |
| TouchRequests.CloseExactly | src/touch_router.c:80-152 | in every run an event asks to close if and only if the panel accepted its contact at the DOWN, and it is the UP of one that began outside the panel, or the first MOVE 60 or more above the DOWN of one that began on the handle |
| TouchRequests.OpenExactly | src/touch_router.c:80-121 | and to open if and only if it is the first MOVE 60 or more below the DOWN of a contact that began on the bar with the panel closed |
| TouchRequests.OpenFlag | src/touch_router.c:108-121 | the router takes the panel for open exactly when it was told so or has asked for it, and not told otherwise since |
| TouchRequests.CubeFollows | src/touch_router.c:123-133 | in every run the cube sees each contact it owns where that contact's last event was |
| TouchRequests.BatchAsks | src/touch_router.c:201-236 | a batch asks to open or to close if and only if one of its events does |
| TouchRouting.RouteAllAgrees | src/touch_router.c:80-158 | on bracketed input an owner exists exactly for open contacts, the cube holds exactly its own, and `panel_primary` is a held contact or -1 |
| TouchRouting.DoubleDownConfusesCube | src/touch_router.c:80-106 | without bracketing the cube can keep a contact that now belongs to the panel |
| TouchRouting.PanelContactsCanOverlap | src/touch_router.c:108-118 | two contacts can belong to the panel at once, on bracketed input, after a drag that opens it while a panel contact is held |
| TouchRouting.UsurpingExactly | src/touch_router.c:80-152 | a step leaves the panel with no contact but its primary one if and only if it is not a MOVE, 60 or more below its start, of a candidate that has not asked yet, with a panel contact held |
| TouchRouting.PanelHoldsOne | src/touch_router.c:80-152 | a run without such a drag never gives the panel two contacts at once |
| TouchRouting.CallsIrrelevant | src/touch_router.c:160-236 | with the panel opening and closing between the calls, the 32-event windows change neither the panel's events, nor their order, nor the requests, nor any other state |
| TouchRouterObject.TouchRouter.BeginContact | src/touch_router.c:80-106 | a DOWN is assigned to the panel, ignored, a candidate or the cube |
| TouchRouterObject.TouchRouter.RouteCandidate | src/touch_router.c:108-121 | a drag from the bar asks for the panel once |
| TouchRouterObject.TouchRouter.RouteCube | src/touch_router.c:123-133 | the cube's slot follows the contact and is released with it |
| TouchRouterObject.TouchRouter.RoutePanel | src/touch_router.c:135-152 | the event is queued, the closing drag recognised, and `panel_primary` released at the end; when it asks to close is `CloseExactly` |
| TouchRouterObject.TouchRouter.DrainPanel | src/touch_router.c:160-174 | hands out the oldest 32 queued events and keeps the rest in order |
| TouchRouterObject.TouchRouter.Feed | src/touch_router.c:201-236 | a batch is the fold of its events, then one window |
| TouchRouterObject.TouchRouter.Reset | src/touch_router.c:238-245 | every contact, the cube's view and the queue are cleared |
| TouchRouterObject.TouchRouter.SetPanelOpen | src/touch_router.c:197-199 | is the showing and hiding of the routing runs, and touches nothing else |
| TouchPipeline.StepKeeps | src/control_input.c:15-47 | every legal decoder step, routing of drained events, showing, hiding and reset keeps decoder and router in agreement, until queued CANCELs are lost or an event other than a MOVE is left out for its time or behind a sleep request |
| TouchPipeline.LeftOutExactly | src/control_input.c:17-20 | leaving an event out keeps router and contacts in agreement if and only if it is a MOVE |
| TouchPipeline.ResetRestores | src/control_input.c:74-89 | the application's reset restores agreement from any valid decoder, CANCELs lost or not |
| TouchPipeline.PipelineAgrees | src/touch_router.c:75-158 | in every run, with the queue routed, no CANCEL lost and nothing but MOVEs left out since the last reset, and no dropped frame in progress, a slot has an owner if and only if it is announced, the cube holds it if and only if it owns it, and with no contact down an open panel captures the next one |
| Pixels.UnpackPack | src/canvas_blend.c:26-38 | the packed channels never overlap |
| Pixels.PackUnpack | src/canvas_blend.c:26-38 | and together they are the whole pixel |
| Pixels.MixBetween | src/canvas_blend.c:26-38 | a mixed channel lies between its operands and every intermediate fits in 32 bits |
| Pixels.MixNearest | src/canvas_blend.c:26-38 | the rounding is to the nearest value |
| Pixels.OverNearest | src/canvas_blend.c:26-38 | each composited channel is the mean of source and destination, weighted by their alphas, to the nearest: twice the error is at most the sum of the weights, for every pair of pixels with a translucent source over a visible destination |
| Pixels.OverAlphaNearest | src/canvas_blend.c:26-38 | and so is the composited alpha |
| Pixels.MoreAlphaIsCloser | src/canvas_blend.c:26-38 | over an opaque pixel more source alpha never moves a channel away from the source |
| Pixels.OverAllBounded | src/canvas_blend.c:26-38 | folding any list of sources keeps an opaque pixel opaque and each channel between the least and greatest value met |
| Pixels.OpaqueHides | src/canvas_blend.c:26-38 | nothing composited before an opaque source is seen, nor is the pixel it started from |
| Pixels.TransparentIsUnseen | src/canvas_blend.c:26-38 | sources without alpha can be left out of any list |
| Coverage.FastIsOracle | src/canvas_blend.c:7-24 | for every pixel of every rounded rectangle, the corner formula with reflection counts what the 4x4 subpixel oracle counts |
| Coverage.GridMirror | src/canvas_blend.c:55-98 | reflecting a corner left to right, top to bottom or both changes no count |
| Coverage.CornerIndexInSquare | src/canvas_blend.c:55-98 | every table lookup is inside the corner square |
| Canvases.CornerTables.Lookup | src/canvas_blend.c:7-24 | a table filled on first use answers with the corner count, and stays right for every radius |
| Canvases.Canvas.Blend | src/canvas_blend.c:40-44 | composites one visible pixel and no other; what compositing gives is `OverNearest` and `OverAlphaNearest` |
| Canvases.Canvas.BlendRect | src/canvas_blend.c:46-53 | composites each visible pixel of the rectangle exactly once and no other |
| Canvases.Canvas.BlendRoundRect | src/canvas_blend.c:55-98 | for every position, size, radius, clip, colour and canvas, each visible pixel is composited once with the colour faded by its oracle count, no other pixel changes |
| Canvases.FadedShare | src/canvas_blend.c:55-98 | the faded colour is the colour itself, with the share of its alpha that its samples are of 16, rounded down |
| Canvases.Canvas.Put | src/canvas.c:23-25 | writes one visible pixel and no other |
| Canvases.Canvas.SetClip | src/canvas.c:17-19 | from then on exactly the pixels of the canvas inside the clip are visible, or all of them for a clip without width |
| Canvases.Canvas.ClearClip | src/canvas.c:21 | makes every pixel of the canvas visible again |
| Canvases.Canvas.Span | src/canvas.c:30-43 | writes exactly the visible pixels of a row segment |
| Canvases.Canvas.FillRect | src/canvas.c:45-48 | writes exactly the visible pixels of a rectangle |
| Canvases.Canvas.RoundRect | src/canvas.c:50-76 | writes exactly the visible pixels inside the rounded rectangle by the per-pixel circle test in single precision, for every size and radius |
| Canvases.RowIsSpan | src/canvas.c:50-76 | a corner row is one span for every radius: a pixel passes the single-precision test if and only if it is between the first hit and its mirror |
| Canvases.RoundRectExactly | src/canvas.c:63-71 | the rectangle is the one exact arithmetic gives if and only if its radius is at most 2896, or even and below 4096 |
| CircleTest.RoundingHarmlessExactly | src/canvas.c:63-71 | for a radius, the single-precision test is the exact one on the whole corner if and only if the radius is at most 2896, or even and below 4096 |
| CircleTest.OddRadiusPaintsMore | src/canvas.c:63-71 | at an odd radius from 2897 to 4095 a pixel at squared distance r * r + 1 is painted |
| CircleTest.LargeRadiusPaintsMore | src/canvas.c:63-71 | and at every radius from 4096 on |
| Binary32.SingleMonotone | src/canvas.c:63-71 | rounding to 24 bits, nearest with ties to even, keeps the order (IEEE 754, section 4.3.1) |
| PanelPaint.UpdateIsFull | src/control_center_paint.c:163-206 | at every pixel and for any two models, the incremental paint over a full paint of the previous model is the full paint of the new one |
| PanelPaint.DamageCovers | src/control_center_paint.c:144-206 | nothing outside the reported damage changes, and the damage lies on the panel |
| PanelPaint.UnchangedOps | src/control_center_paint.c:163-206 | the change tests miss nothing that is painted |
| PanelPaint.CardIsGlass | src/control_center_layout.h:4-43 | the rounded card is full, plain glass under every control |
| PanelPaint.RestoreIsGlass | src/control_center_paint.c:144-161 | restoring a box puts the same glass back, whatever was there |
| PanelPaint.WifiUpdated | src/control_center_paint.c:163-206 | repainting the Wi-Fi tile whole, only under its signal line, or not at all, gives the tile of a full paint |
| PanelPaint.ControlsApart | src/control_center_layout.h:4-43 | at a pixel of one control no other part of a paint can draw |
| PanelView.BrightnessShows | src/control_center_paint.c:76-88 | a full paint of any model shows, between the tile's rounded sides and under its text, exactly the lowest h of the 312 rows of the brightness bar lit, h being the level's share of the range above 8 rounded down |
| PanelView.LitRowsRise | src/control_center_paint.c:81-82 | none are lit at 8, all at the maximum, and never fewer for a higher level |
| PanelView.PercentNearest | src/control_center_paint.c:86-87 | the percentage shown is the nearest |
| PanelView.DecimalReads | src/control_center_paint.c:86-87 | and a number is written so that it reads back |
| PanelView.RebootTilesShow | src/control_center_paint.c:90-95 | a full paint lights a reboot tile exactly when it is the armed one, and its text says to tap again |
| PanelView.AutoShows | src/control_center_paint.c:97-101 | it lights the automatic tile exactly while that is on, with a white dot then and a grey one otherwise |
| PanelView.WifiShows | src/control_center_paint.c:56-74 | the Wi-Fi dot is lit exactly while connected, and the lines are those of the state |
| PanelView.TimerShows | src/control_center_paint.c:103-113 | the lit timer segment is that of the minutes set, and no other is |
| PanelView.OffShows | src/control_center_paint.c:133-135 | the screen-off tile is never lit |
| PanelView.HandleShows | src/control_center_paint.c:128-129 | the handle is grey |
| PanelView.LinesShow | src/control_center_paint.c:115-140 | under the tiles there is glass, the note if there is one, and the footer |
| PanelPainter.Painter.Paint | src/control_center_paint.c:122-141 | every pixel is the full paint of the model; what a full paint shows is told in `PanelView` |
| PanelPainter.Painter.RestoreGlass | src/control_center_paint.c:144-161 | clears and glazes exactly the box and grows the damage by it |
| PanelPainter.Painter.Update | src/control_center_paint.c:163-206 | if the canvas was a full paint of the previous model it becomes a full paint of the new one, no pixel outside the damage changed, and the result says whether anything was restored |
| PanelFallbackText.FallbackConfined | src/control_center_paint.c:30-43 | the bitmap fallback never draws outside its text box, for any glyph shapes |
| PanelFallbackText.FallbackUpdateIsFull | src/control_center_paint.c:30-43 | so without fonts the incremental paint is the full paint with no assumption on text |
| PanelFontText.DrawText | src/font.c:133-185 | through the shared cache, whatever it holds and wherever it is cleared on the way, composites glyph by glyph along the pen, clipped to the two sides, exactly the ink of the text in freshly rasterised glyphs |
| PanelFontText.DrawTextFit | src/font.c:191-214 | likewise, at every pixel, the ink of the text cut to the width and clipped to it |
| PanelFontText.DrawnWhereInked | src/font.c:164-185 | a text touches a pixel if and only if a glyph of it, at its pen and inside the clip, has ink there |
| PanelFontText.StampMeaning | src/font.c:164-185 | a glyph is drawn where its face has it, a digit centred in the digits' common advance to half a pixel, and its mask is its coverage row by row |
| PanelFontText.InkShare | src/font.c:178-179 | ink has the text's colour and, of its alpha, the coverage's share rounded down |
| PanelFontText.ConfinedExactly | src/font.c:164-214 | the confinement the incremental paint needs holds of the fonts if and only if no inked cell of a glyph in a panel text, placed by the advances before it, the indent and the baseline, falls outside the box |
| PanelFontText.AcrossExactly | src/control_center_paint.c:19-30 | a text keeps between the sides of its box if and only if no inked cell, less than the box's width along the text, reaches that width with the indent added; always when it is not centred |
| PanelFontText.OverhangHappens | src/control_center_paint.c:19-30 | a wide glyph in a centred label of the timer leaves its box |
| PanelFontText.FontConfined | src/font.c:164-214 | fonts whose glyphs, for what decoding can yield, fit the panel's boxes in height, and their advance on the right where text is centred, never draw outside them |
| PanelFontText.FontUpdateIsFull | src/control_center_paint.c:163-206 | so with such fonts the incremental paint is the full paint |
| PowerPolicy.RunSum | src/power_policy.c:126-133 | `current_sum` is always the sum of the ring's live entries |
| PowerPolicy.DecisionsAreJustified | src/power_policy.c:93-146 | in every run every decision uses the truncated average of exactly the last three readings: consecutive accepted calls of one supply and one Full flag, each 5 to 15 seconds after the one before unless that was stamped 0 |
| PowerPolicy.ZeroStampHidesGap | src/power_policy.c:105-116 | a decision can rest on readings an hour apart, the first stamped 0 |
| PowerPolicy.GapGuardExactly | src/power_policy.c:105-116 | in every run, with a window open, whatever call continues it comes 5 to 15 seconds later if and only if the last reading was not stamped 0 |
| PowerPolicy.GapsHoldExactly | src/power_policy.c:105-134 | both gaps behind a decision are 5 to 15 seconds if and only if those after a reading stamped 0 are |
| PowerPolicy.DecisionsAreSpaced | src/power_policy.c:110-134 | two decisions of a run are at least 20 seconds apart |
| PowerPolicy.DecidesExactly | src/power_policy.c:110-136 | in every run, after a call that was refused or decided and while every reading continues the window, a call decides if and only if it is the third or later and 30 seconds have passed |
| PowerPolicy.ReopenedDecidesExactly | src/power_policy.c:110-136 | after a reading that is late or switches the supply, if and only if it is the second or later after it and 20 seconds have passed |
| PowerPolicy.DecisionsApply | src/power_policy.c:65-146 | in every run a decision without a supply applies 128 or the maximum if that is less, at Full the maximum, otherwise the level of the supply, AC before USB; it is handed out when it is a change, and the note says that the supply cannot sustain exactly when the average is below -50 mA at the floor |
| PowerPolicy.DecisionsTrustReadings | src/power_policy.c:101-109 | each of the three readings behind a decision was valid in all its fields and at most ten seconds old |
| PowerPolicy.LevelsMoveSlowly | src/power_policy.c:65-91 | a supply's level is unset or in [min(40, max), max], moves by at most 16 once set, and only in a decision on that supply |
| PowerPolicy.LevelsFollowCurrent | src/power_policy.c:65-91 | in a charging decision the level falls if and only if the last three readings average below -50 mA and there is room, rises only above 100 mA, by a cut step of 16, and holds above 100 mA only at the maximum or on a step that failed less than ten minutes ago |
| PowerPolicy.RaiseRecorded | src/power_policy.c:81-89 | a recorded raise was made by an earlier call of the run, at the recorded time and level |
| PowerPolicy.FailuresAreRecent | src/power_policy.c:70-80 | a level is marked failed only when the run raised to it at most a minute before |
| PowerPolicy.FailedLevelNotRetried | src/power_policy.c:81-89 | a failed level is not raised to again for ten minutes, unless another failure of that supply is recorded in between |
| PowerPolicyObject.Controller.Step | src/power_policy.c:93-146 | computes the specified call, its answer included |
| PowerPolicyObject.Controller.Decide | src/power_policy.c:65-91 | computes the specified decision on one supply |
| CArithmetic.TruncDivMeaning | src/power_policy.c:135 | the division used is C's: toward zero, with the remainder's sign that of the dividend |
| ActionWorker.RunInv | src/action_worker.c:28-179 | in every interleaving of calls, monitor iterations and child events the worker's fields agree with what happened to its children |
| ActionWorker.CompletionsBalance | src/action_worker.c:39-70 | every accepted start raises exactly one completion, polled at most once and with its own status; busy if and only if there is a pid and it was not stopped |
| ActionWorker.OneChildAtATime | src/action_worker.c:99-150 | no child starts before the last is reaped and its completion polled |
| ActionWorker.StartRefusedExactly | src/action_worker.c:99-150 | a start is accepted if and only if its arguments and environment allow it, every child is reaped and every completion polled |
| ActionWorker.CompletionTellsTheCause | src/action_worker.c:28-70 | a completion carries the exit code only when a monitor iteration reaped the child before any stop, is -1 otherwise, and is never changed or withdrawn |
| ActionWorker.NoStraySignal | src/action_worker.c:28-37 | while the monitor alone reaps, no signal goes to a reaped pid |
| ActionWorker.TheftStrays | src/action_worker.c:28-37 | with another party reaping, a cancel can signal a pid that is no longer the child's |
| ActionWorker.StraysExactly | src/action_worker.c:28-179 | in every run a signal has strayed if and only if a cancel, a release or an expired iteration on an unstopped pid came after another party's reap, with no monitor iteration in between |
| ActionWorker.GoneMeansStolen | src/action_worker.c:39-70 | in every run the worker holds the pid of a reaped child exactly from such a reap to the next monitor iteration |
| ActionWorker.FreedLast | src/action_worker.c:39-70 | the object is freed only after release and with its last child reaped, and nothing uses it afterwards |
| ActionWorker.ReleasedIsFreed | src/action_worker.c:171-179 | after a release, once the child has ended, two monitor iterations free the object |
| ActionWorker.DeadlineEndsBusy | src/action_worker.c:39-70 | one monitor iteration past the deadline, or with an unreadable clock, ends the busy state with -1 |
| ActionWorker.DeadlineOfStart | src/action_worker.c:135-147 | in every run, while a child is held its deadline is its accepted start's time and that start's seconds later |
| ActionWorker.StoppedOnTime | src/action_worker.c:51-52 | in every run an iteration that finds the child running stops it if and only if its start's time is up, the worker was released or the clock failed |
| ActionWorker.EndIsReported | src/action_worker.c:53-63 | the iteration that finds a child ended in time reports its exit code, 128 and its signal, or -1 |
| ActionWorker.ActionWorkerObject.StopChild | src/action_worker.c:28-37 | signals and completes with -1 exactly an unstopped child |
| ActionWorker.ActionWorkerObject.Start | src/action_worker.c:99-150 | accepts and records a child or leaves the worker as it was |
| ActionWorker.ActionWorkerObject.PollResult | src/action_worker.c:161-169 | hands out a pending completion once |
| ActionWorker.ActionWorkerObject.Free | src/action_worker.c:171-179 | stops the child and marks the worker released |
| ActionWorker.ActionWorkerObject.MonitorOnce | src/action_worker.c:39-70 | one iteration: stop when released, cancelled or late, then reap |
| GlyphCache.RunInv | src/font.c:28-162 | after any opens, lookups and closes no table holds a code point twice, every entry is the face's own glyph and reachable by probing, and the byte count is the sum over all open fonts, within the budget |
| GlyphCache.CacheIsTransparent | src/font.c:133-162 | in every run a lookup answers with exactly what a fresh rasterisation of the face's code point gives, unless that alone is over the budget |
| GlyphCache.TextIsTransparent | src/font.c:164-185 | so does every lookup of a whole text, though each may clear the table for the next |
| GlyphCache.GlyphShown | src/font.c:110-162 | in every run a code point the face has is shown as itself, another as U+FFFD if the face has that and as a question mark otherwise |
| GlyphCache.StoredIsFound | src/font.c:133-162 | probing finds every stored code point at its slot |
| GlyphCache.VacantIsAbsent | src/font.c:133-162 | a probe that ends in a vacancy or exhausts the table means the code point is nowhere in it |
| GlyphCache.FillOk | src/font.c:133-162 | filling the first vacancy keeps every entry reachable and unique and adds the glyph's area |
| GlyphCacheObject.FontLibrary.ClearCache | src/font.c:31-40 | empties one table and gives its bytes back |
| GlyphCacheObject.FontLibrary.OpenFont | src/font.c:42-74 | links an empty font at the head of the list |
| GlyphCacheObject.FontLibrary.CloseFont | src/font.c:76-84 | unlinks exactly that font and gives its bytes back |
| GlyphCacheObject.FontLibrary.Lookup | src/font.c:133-162 | computes the specified lookup on the shared state, clearing a full table or every open font when it must |
| GlyphCacheObject.FontLibrary.ProbeTable | src/font.c:133-162 | the probing loop is the specified linear search |
| TextFit.DecodesStandard | src/font.c:90-108 | every Unicode scalar value in its RFC 3629 encoding (sections 3 and 4) decodes to itself, as the font shows it, using exactly its bytes |
| TextFit.OnlyStandardDecodes | src/font.c:90-108 | nothing else decodes to anything but the replacement character: overlong forms, surrogates, stray and cut sequences |
| TextFit.ReplacedOnce | src/font.c:90-108 | what is replaced is replaced once: the lead byte with those continuation bytes behind it that it announces, and no more |
| TextFit.NextCodePoint | src/font.c:90-108 | the decoder reads no byte past the terminator and consumes at least one |
| TextFit.PrefixDecodes | src/font.c:191-214 | a prefix cut between code points followed by an ellipsis decodes to those code points and U+2026 |
| TextFit.FontWidth | src/font.c:122-131 | the sum of the advances of the decoded text, held at INT_MAX |
| TextFit.DrawFit | src/font.c:191-214 | draws the whole text when it fits, else its longest code-point prefix that fits with the ellipsis, else nothing; what is drawn decodes to just that and is no wider than asked |
| ControlPanel.HitExactly | src/control_center.c:13-27 | a point hits a control if and only if it is inside that control's rectangle, so the order of the tests is immaterial |
| ControlPanel.SliderLevels | src/control_center.c:66-71 | the slider's ends are the maximum and 8 and a height stands for the nearest level |
| ControlPanel.SliderRises | src/control_center.c:66-71 | higher on the slider is never darker |
| ControlPanel.StepRanges | src/control_center.c:28-136 | brightness stays in [8, max], sleep_minutes in {0, 1, 5, 15}, and at most three in-range actions result |
| ControlPanel.RoomIsTransactional | src/control_center.c:130-136 | too little room returns the negated need and leaves the model as it was, three is always enough, and enough room gives every action; a negative capacity refuses everything |
| ControlPanel.AnswersTrueExactly | src/control_center.c:130-136 | a nonnegative answer means that the event was handled whole, for every panel, event and time, if and only if the capacity is not negative |
| ControlPanel.NegativeRoomLosesDown | src/control_center.c:130-136 | a DOWN on a tile, offered any negative capacity, is answered 0 and lost |
| ControlPanel.OthersAreInert | src/control_center.c:92 | any event of a slot that is not the captured one can be taken out of a run without changing its other states or actions |
| ControlPanel.CaptureBegan | src/control_center.c:80-91 | in every run a captured contact has a DOWN of its own on the captured tile and has been captured since |
| ControlPanel.ArmBegan | src/control_center.c:122-127 | in every run an armed tile was armed by a completed tap on it and has stayed armed since |
| ControlPanel.CloseDisarms | src/control_center.c:52-61 | a close or an expired tick leaves nothing armed |
| ControlPanel.RebootNeedsTwoTaps | src/control_center.c:104-127 | in every run a reboot is the second of two separate completed taps on one tile less than 3000 ms apart, with no close, expiry, disarm or other arming in between |
| ControlTaps.TwoTapsReboot | src/control_center.c:104-127 | in every run two taps on one reboot tile less than 3000 ms apart reboot to it, the first one arming it, if nothing in between disarms it or arms the other; with `RebootNeedsTwoTaps`, a reboot is exactly that |
| ControlTaps.TapYields | src/control_center.c:77-129 | in every run a tap on a tile, a DOWN and an UP of one slot on it at most 400 ms apart, gives exactly the actions and the model the tile is for: the automatic, timer, Wi-Fi, off and reboot tiles |
| ControlTaps.DragSets | src/control_center.c:80-103 | in every run a drag begun on the brightness tile switches automatic off and sets the level under the finger, and its UP leaves and saves the level under the finger |
| ControlTaps.ClosesExactly | src/control_center.c:77-129 | in every run an event closes the open panel if and only if the captured contact slides the handle off by more than 60, ends where it began outside the panel, or taps the screen-off tile |
| ControlTaps.UntouchedWithoutCapture | src/control_center.c:80-91 | in every run nothing but the brightness is dragged, and only by a captured contact |
| ControlPanel.RunSlide | src/control_center.c:34-61 | in every run the slide stays between hidden and whole |
| ControlPanel.SlideSettles | src/control_center.c:34-61 | in every run a panel neither opened nor closed meanwhile has settled at the first tick 180 ms after its slide began |
| ControlPanel.ToggleSettles | src/control_center.c:48-61 | 180 ms after a call that closed it, and not opened again, the panel is invisible at the next tick and no event has any effect; after one that opened it, it is shown whole |
| ControlCenter.PanelModel.Handle | src/control_center.c:77-129 | computes the specified handling and its actions in order; what they are for whole taps and drags is `TapYields`, `TwoTapsReboot`, `DragSets` and `ClosesExactly` |
| ControlCenter.PanelModel.HandleEvent | src/control_center.c:130-136 | the transactional entry: model and output change only together |
| ControlCenter.PanelModel.Open | src/control_center.c:48-51 | starts the slide in from where the panel is; where it goes is `RunSlide` and `ToggleSettles` |
| ControlCenter.PanelModel.Close | src/control_center.c:52-56 | disarms, releases and starts the slide out from where the panel is; where it ends is `ToggleSettles` |
| ControlCenter.PanelModel.Tick | src/control_center.c:58-61 | moves the slide and expires the arming, as in the runs of `RunSlide` and `CloseDisarms` |
| DeviceTreeBlob.AddReserve | tools/dtb-add-memreserve.py:21-63 | computes the specified edit, each failure included |
| DeviceTreeBlob.ParseMap | tools/dtb-add-memreserve.py:30-38 | the map's entries up to its zero pair, or failure when it runs off the blob |
| DeviceTreeBlob.MapReadsBack | tools/dtb-add-memreserve.py:44-45 | a packed map reads back as its entries wherever it stands |
| DeviceTreeBlob.EditKeepsMeaning | tools/dtb-add-memreserve.py:21-63 | for every well-formed blob that is accepted, with free space or a tail behind its end or not, and every range but the zero pair, re-reading the output gives the old reservations and the new one, byte-identical structure and strings blocks at the offsets its header gives, every other header byte kept, and its own length (Devicetree Specification sections 5.2 and 5.3) |
| DeviceTreeBlob.EditAccepts | tools/dtb-add-memreserve.py:39-63 | a blob whose blocks lie inside it is edited if and only if the range is unsigned 64-bit and meets no reservation, the blocks stay aligned, the moved words fit, and the two block sizes add up to the distance from the structure to the end |
| DeviceTreeBlob.MeetsExactly | tools/dtb-add-memreserve.py:39-41 | two ranges meet if and only if they share an address, or one is empty and strictly inside the other |
| DeviceTreeBlob.OverlapRefused | tools/dtb-add-memreserve.py:39-41 | a range is refused as overlapping if and only if one of the blob's reservations meets it so |
| DeviceTreeBlob.AcceptedIsAdjacent | tools/dtb-add-memreserve.py:59-63 | so of the well-formed blobs only those without free space between or behind the two blocks are accepted |
| DeviceTreeBlob.ZeroPairIsLost | tools/dtb-add-memreserve.py:42-45 | where the zero range is accepted the map reads as before |
| DeviceTreeBlob.ZeroPairHappens | tools/dtb-add-memreserve.py:39-63 | and a blob of 80 bytes accepts it |
| DeviceTreeBlob.StringsFoundExactly | tools/dtb-add-memreserve.py:51-63 | for every accepted blob the strings' bytes are put right behind the structure's; the new header points there if and only if they followed it in the old blob |
| DeviceTreeBlob.SwappedLosesStrings | tools/dtb-add-memreserve.py:51-63 | a blob with its strings first is edited into one whose header finds other bytes for them |
| DeviceTreeBlob.StringsCanBeLost | tools/dtb-add-memreserve.py:39-63 | 80 bytes are such a blob, and accepted |
| ResourceImage.ReadEntries | tools/make-resource.py:34-48 | computes the specified reading, each failure included; names are decoded as strict UTF-8 |
| ResourceImage.WriteImage | tools/make-resource.py:51-69 | computes the specified image for names of any code points, or fails when a number does not fit |
| ResourceImage.MakeIndex | tools/make-resource.py:58-62 | the slice assignments give the specified bytes for a name of any length and any code points, a block grown by the bytes beyond one a character included |
| ResourceImage.RoundTripExactly | tools/make-resource.py:34-69 | under a whole resource header, what was written reads back if and only if every name is NUL-free and at most 252 bytes, and all names are ASCII, or all but the last while every payload is zeros |
| ResourceImage.NamesCanBeLost | tools/make-resource.py:58-62 | a name of 253 letters and a name of one accented letter do not read back |
| Utf8.EncodedDecodes | tools/make-resource.py:44-60 | what `encode` gives `decode` takes back (RFC 3629, section 3) |
| Utf8.DecodedEncodes | tools/make-resource.py:44-60 | and strict decoding takes nothing else |
| ResourceImage.ImageLayout | tools/make-resource.py:51-69 | while the index blocks keep their size they stand from block 1, the payloads from block 1 + count, and the image ends with them |
| ResourceImage.PayloadsApart | tools/make-resource.py:65-67 | each payload starts on a block, holds its bytes, and ends within a block of where the next one starts |
| ResourceImage.ImageHeader | tools/make-resource.py:52-53 | the header's bytes are kept except for the count, which is the number of entries |
| ResourceImage.RemakeReads | tools/make-resource.py:72-101 | whatever the stock image, device tree and logo, the image written reads as the stock entries in order with just the named payloads replaced if and only if the stock names are ASCII |
| ResourceImage.RemakeTwice | tools/make-resource.py:72-101 | with ASCII names, remaking a remade image with the same parts changes no byte |
| Rle8.Rle8 | tools/make-logo.py:43-58 | computes the specified code of the rows from the bottom up |
| Rle8.Rle8Row | tools/make-logo.py:48-55 | computes the specified runs of one row |
| Rle8.RoundTrip | tools/make-logo.py:43-58 | a full BI_RLE8 decoder ([MS-WMF] section 2.1.1.7) gives back every picture of every size and uses all of the code |
| Rle8.RowIsRuns | tools/make-logo.py:48-55 | a row's code is pairs whose count is 1 to 255, so none is an escape; they add up to the width and spell the row |
| Rle8.NoFewerRuns | tools/make-logo.py:48-55 | no other runs of 1 to 255 pixels spell the row in fewer pairs |

## Left out

- Device plumbing: DRM/KMS, EGL, GBM, i2c, uinput, the cube, the test programs, device trees, kernel patches, scripts and journals.
- Settings, sleep timer, backlight, Wi-Fi status and power-key helpers: each is a short function over a file, a device or one timestamp, and none shares state with the parts modelled here.
- Allocation failure, null pointers and the error codes that go with them; memory is unbounded.
- Raw descriptor reads: partial records, EINTR and errno; a complete input record and the driver's answers to the resync calls are step parameters.
- Clocks: every time is a parameter; nothing is assumed of it unless a lemma says so.
- Floating-point rounding, except in the circle test of an opaque rounded rectangle, which is in single precision without fused operations or infinities. Coordinates, the slide and the slider level are reals; the subpixel distances are integers in eighths of a pixel, which the doubles represent exactly; the rounding of the slider fill and percentage is taken over the reals.
- The 1-euro filter and the axis flip are an arbitrary function of the samples since the last reset.
- Raw events and device records are not mixed while a resync is owed; the application feeds none then.
- C integer overflow of coordinates such as `x + w`; pixels and the glyph hash are modelled at their 32-bit width.
- Fork, exec, process groups, signals' delivery and closing of descriptors: a start either yields a child or does not, and what `waitpid` can answer follows from the child's state.
- The worker's lock and condition variable: each locked section is one atomic step; `aw_busy` only reads a flag in one.
- Glyph rasterisation and advances are arbitrary deterministic functions; a mask's area is its box.
- The text painter of the panel is an arbitrary function confined to the boxes the panel gives it; `FallbackConfined` discharges this for the bitmap fallback and `FontConfined` for fonts whose glyphs fit those boxes. Warming a font's cache draws nothing.
- `canvas_text` and `canvas_text7`.
- Text advances are taken to be nonnegative.
- ResourceImage.RemakeTwice: takes the stock names to be ASCII, because with others the first remade image does not read back (`RemakeReads`).
- Lone surrogates in a Python string, which `encode` refuses; no decoded name has any.
- BMP headers and palettes, and the scaling of the logo.
- Helper methods exist where one C function is too long for one proof: marking and forgetting after a publish, one row of a rounded rectangle, preparing and pushing a reading, one resource entry, laying out the edited blob. `cc_handle` restores the old model where the source works on a copy, and a full glyph table is cleared after the probing loop where the source does it in the last iteration.
